/** Where the patch puts a condition, line by line, and how it cuts a text into lines: the same rules written down
    without the functions of the patch. */
module WorkflowPlaces {
  import opened PythonText
  import opened WorkflowPatch

  // ---------------------------------------------------------------- lines

  /** The line begins a job: two spaces, not four, and its last character that is not blank is a colon. */
  ghost predicate BeginsJob(line: string) {
    && |line| >= 2 && line[0] == ' ' && line[1] == ' '
    && !(|line| >= 4 && line[2] == ' ' && line[3] == ' ')
    && exists k :: LastMark(line, k)
  }

  ghost predicate LastMark(line: string, k: nat) {
    k < |line| && line[k] == ':' && forall j :: k < j < |line| ==> Blank(line[j])
  }

  predicate BeginsIf(line: string) {
    |line| >= 7 && line[..7] == "    if:"
  }

  lemma {:induction false} StripRightMark(line: string)
    ensures StripRight(line) <= line && forall j :: |StripRight(line)| <= j < |line| ==> Blank(line[j])
    ensures StripRight(line) != "" ==> !Blank(line[|StripRight(line)| - 1])
  {
    if line != "" && IsSpace(line[|line| - 1]) { StripRightMark(line[..|line| - 1]); }
  }

  lemma {:induction false} StripLeftEnd(line: string)
    requires line != "" && !Blank(line[|line| - 1])
    ensures StripLeft(line) != "" && StripLeft(line)[|StripLeft(line)| - 1] == line[|line| - 1]
  {
    if IsSpace(line[0]) { StripLeftEnd(line[1..]); }
  }

  lemma EndsBlockIs(line: string)
    ensures EndsBlock(line) <==> BeginsJob(line)
  {
    StripRightMark(line);
    var right := StripRight(line);
    assert StripLeft("") == "";
    if right != "" { StripLeftEnd(right); }
    assert !Blank(':');
    hide Blank, IsSpace, StripLeft, StripRight;
    assert StartsWith(line, "  ") <==> |line| >= 2 && line[0] == ' ' && line[1] == ' ';
    assert StartsWith(line, "    ") <==> |line| >= 4 && line[0] == ' ' && line[1] == ' ' && line[2] == ' ' && line[3] == ' ';
    if EndsWith(Strip(line), ':') {
      assert LastMark(line, |right| - 1);
    }
    if k: nat :| LastMark(line, k) {
      assert |right| == k + 1;
    }
  }

  lemma IsConditionIs(line: string)
    ensures IsCondition(line) <==> BeginsIf(line)
  {
  }

  /** The lines that do not begin a condition, in order. */
  function Others(lines: seq<string>): seq<string> {
    if lines == [] then []
    else if BeginsIf(lines[|lines| - 1]) then Others(lines[..|lines| - 1])
    else Others(lines[..|lines| - 1]) + [lines[|lines| - 1]]
  }

  lemma {:induction false} OthersFirst(lines: seq<string>)
    requires lines != []
    ensures Others(lines) == (if BeginsIf(lines[0]) then [] else [lines[0]]) + Others(lines[1..])
  {
    hide BeginsIf;
    if |lines| > 1 {
      OthersFirst(lines[..|lines| - 1]);
      assert lines[..|lines| - 1][1..] == lines[1..][..|lines| - 2];
    } else {
      assert lines[..0] == [] && lines[1..] == [];
    }
  }

  lemma {:induction false} OthersAre(lines: seq<string>)
    ensures WithoutConditions(lines) == Others(lines)
  {
    if lines != [] {
      OthersFirst(lines);
      IsConditionIs(lines[0]);
      hide IsCondition, BeginsIf, Others;
      OthersAre(lines[1..]);
    }
  }

  lemma {:induction false} AllOthers(lines: seq<string>)
    requires forall i :: 0 <= i < |lines| ==> !BeginsIf(lines[i])
    ensures Others(lines) == lines
  {
    hide BeginsIf;
    if lines != [] { AllOthers(lines[..|lines| - 1]); }
  }

  // ---------------------------------------------------------------- the patch

  /** The job's first block is the lines after `m` and before `e`. */
  ghost predicate BlockAt(lines: seq<string>, job: string, m: nat, e: nat) {
    && m < e <= |lines| && lines[m] == "  " + job + ":"
    && (forall i :: 0 <= i < m ==> lines[i] != "  " + job + ":")
    && (forall i :: m < i < e ==> !BeginsJob(lines[i]))
    && (e < |lines| ==> BeginsJob(lines[e]))
  }

  /** `c` is the place of the block's first condition, or of its first line if it has none. */
  ghost predicate PlaceAt(lines: seq<string>, m: nat, e: nat, c: nat)
    requires m < e <= |lines|
  {
    || (m < c < e && BeginsIf(lines[c]) && forall i :: m < i < c ==> !BeginsIf(lines[i]))
    || (c == m + 1 && forall i :: m < i < e ==> !BeginsIf(lines[i]))
  }

  lemma ConditionDropped(lines: seq<string>, c: nat, e: nat)
    requires c < e <= |lines| && BeginsIf(lines[c])
    ensures Others(lines[c..e]) == WithoutConditions(lines[c + 1..e])
  {
    hide BeginsIf, Others, WithoutConditions;
    OthersAre(lines[c + 1..e]);
    OthersFirst(lines[c..e]);
    assert lines[c..e][1..] == lines[c + 1..e];
  }

  lemma AtFirstCondition(lines: seq<string>, m: nat, e: nat, c: nat, desired: string)
    requires m < c < e <= |lines| && IsCondition(lines[c]) && NoneIn(lines, m + 1, c)
    ensures lines[..m + 1] + Conditioned(lines[m + 1..e], desired) == lines[..c] + [desired] + Others(lines[c..e])
  {
    IsConditionIs(lines[c]);
    ConditionedFrom(lines, m + 1, c, e, desired);
    ConditionDropped(lines, c, e);
    hide *;
    assert lines[..m + 1] + lines[m + 1..c] == lines[..c];
  }

  lemma AtFirstLine(lines: seq<string>, m: nat, e: nat, desired: string)
    requires m < e <= |lines| && NoneIn(lines, m + 1, e)
    ensures lines[..m + 1] + Conditioned(lines[m + 1..e], desired) == lines[..m + 1] + [desired] + Others(lines[m + 1..e])
  {
    forall i | m < i < e ensures !BeginsIf(lines[i]) { IsConditionIs(lines[i]); }
    hide IsCondition, BeginsIf, Others, Conditioned, WithoutConditions;
    NoneFound(lines, m + 1, e, [], desired);
    AllOthers(lines[m + 1..e]);
  }

  lemma ConditionedAt(lines: seq<string>, m: nat, e: nat, c: nat, desired: string)
    requires m < e <= |lines| && PlaceAt(lines, m, e, c)
    ensures lines[..m + 1] + Conditioned(lines[m + 1..e], desired) == lines[..c] + [desired] + Others(lines[c..e])
  {
    forall i | 0 <= i < |lines| ensures IsCondition(lines[i]) <==> BeginsIf(lines[i]) { IsConditionIs(lines[i]); }
    hide IsCondition, BeginsIf, Others, Conditioned;
    if c == m + 1 && NoneIn(lines, m + 1, e) {
      AtFirstLine(lines, m, e, desired);
    } else {
      AtFirstCondition(lines, m, e, c, desired);
    }
  }

  /** The patched lines: all lines before the place, the condition, the block's other lines in order, the rest. */
  lemma PatchedAt(lines: seq<string>, job: string, expression: string, m: nat, e: nat, c: nat)
    requires BlockAt(lines, job, m, e) && PlaceAt(lines, m, e, c)
    ensures SetIf(lines, Marker(job), Desired(expression))
         == lines[..c] + ["    if: ${{ " + expression + " }}"] + Others(lines[c..e]) + lines[e..]
  {
    assert Marker(job) == "  " + job + ":" && Desired(expression) == "    if: ${{ " + expression + " }}";
    hide Marker, Desired, SetIf, Conditioned, BeginsJob, EndsBlock, BeginsIf, PlaceAt, Others;
    forall i | 0 <= i < |lines| ensures EndsBlock(lines[i]) <==> BeginsJob(lines[i]) { EndsBlockIs(lines[i]); }
    SetIfIs(lines, Marker(job), Desired(expression), m, e);
    ConditionedAt(lines, m, e, c, Desired(expression));
  }

  // ---------------------------------------------------------------- texts

  /** The lines of a text with what ends each of them. */
  function Glued(lines: seq<string>, ends: seq<string>): string
    requires |lines| == |ends|
  {
    if lines == [] then "" else lines[0] + ends[0] + Glued(lines[1..], ends[1..])
  }

  /** What str.splitlines breaks at: LF, VT, FF, CR, FS, GS, RS, NEL, LS and PS. */
  predicate Break(c: char) {
    var n := c as int;
    n == 10 || n == 11 || n == 12 || n == 13 || n == 28 || n == 29 || n == 30 || n == 0x85 || n == 0x2028 || n == 0x2029
  }

  /** No line has a break inside; each ends in a break or in CR LF, which are never taken apart, or is the last one and
      not empty. */
  ghost predicate WellCut(lines: seq<string>, ends: seq<string>) {
    && |lines| == |ends|
    && (forall i :: 0 <= i < |lines| ==> Unbroken(lines[i]))
    && (forall i :: 0 <= i < |lines| ==>
          || ends[i] == "\r\n" || (|ends[i]| == 1 && Break(ends[i][0]))
          || (ends[i] == "" && i == |lines| - 1 && lines[i] != ""))
    && (forall i :: 0 <= i < |lines| - 1 && ends[i] == "\r" ==> !("\n" <= lines[i + 1] + ends[i + 1]))
  }

  ghost predicate Unbroken(line: string) {
    forall j :: 0 <= j < |line| ==> !Break(line[j])
  }

  /** SplitLines cuts a text exactly so; only one way of cutting it meets these rules. */
  lemma {:induction false} SplitCuts(text: string) returns (ends: seq<string>)
    ensures WellCut(SplitLines(text), ends) && Glued(SplitLines(text), ends) == text
    decreases |text|
  {
    hide WellCut, Glued, FirstBreak, IsBreak;
    if text == "" {
      CutNone();
      ends := [];
    } else {
      var i := FirstBreak(text);
      FirstBreakMeans(text);
      if i == |text| {
        ends := [""];
        CutLast(text);
      } else {
        var next := if text[i] == '\r' && i + 1 < |text| && text[i + 1] == '\n' then i + 2 else i + 1;
        var rest := SplitCuts(text[next..]);
        ends := [text[i..next]] + rest;
        BreakCut(text, i, next);
        CutFirst(text, i, next, SplitLines(text[next..]), rest);
      }
    }
  }

  lemma CutNone()
    ensures WellCut([], []) && Glued([], []) == ""
  {
  }

  lemma CutLast(text: string)
    requires text != "" && Unbroken(text)
    ensures WellCut([text], [""]) && Glued([text], [""]) == text
  {
    hide Unbroken;
    assert Glued([text], [""]) == text + "" + Glued([], []);
  }

  lemma FirstBreakMeans(text: string)
    ensures Unbroken(text[..FirstBreak(text)]) && (FirstBreak(text) < |text| ==> Break(text[FirstBreak(text)]))
    ensures FirstBreak(text) == |text| ==> Unbroken(text)
  {
  }

  lemma BreakCut(text: string, i: nat, next: nat)
    requires i < |text| && next == if text[i] == '\r' && i + 1 < |text| && text[i + 1] == '\n' then i + 2 else i + 1
    ensures text[i..next] == "\r\n" || (next == i + 1 && (text[i] == '\r' ==> !("\n" <= text[next..])))
  {
  }

  lemma CutFirst(text: string, i: nat, next: nat, lines: seq<string>, rest: seq<string>)
    requires i < next <= |text| && Unbroken(text[..i])
    requires WellCut(lines, rest) && Glued(lines, rest) == text[next..]
    requires text[i..next] == "\r\n" || (next == i + 1 && Break(text[i]) && (text[i] == '\r' ==> !("\n" <= text[next..])))
    ensures WellCut([text[..i]] + lines, [text[i..next]] + rest)
    ensures Glued([text[..i]] + lines, [text[i..next]] + rest) == text
  {
    hide Break, Unbroken;
    assert ([text[..i]] + lines)[1..] == lines && ([text[i..next]] + rest)[1..] == rest;
    assert text == text[..i] + text[i..next] + text[next..];
    if lines != [] { assert lines[0] + rest[0] <= text[next..]; }
  }

  /** Joining ends every line with a line feed. */
  lemma {:induction false} JoinGlues(lines: seq<string>)
    requires lines != []
    ensures JoinLines(lines) == Glued(lines, seq(|lines|, _ => "\n"))
  {
    var ends := seq(|lines|, _ => "\n");
    assert ends[1..] == seq(|lines| - 1, _ => "\n");
    if |lines| > 1 { JoinGlues(lines[1..]); } else { assert Glued(lines[1..], ends[1..]) == ""; }
  }

  lemma NotEmptied(lines: seq<string>, marker: string, desired: string)
    requires lines != []
    ensures SetIf(lines, marker, desired) != []
  {
    hide Conditioned;
  }

  /** A job that has no marker line is left alone, and else the patched lines are joined. */
  lemma PatchedText(text: string, job: string, expression: string)
    ensures ("  " + job + ":") !in SplitLines(text) ==> SetJobIf(text, job, expression) == text
    ensures ("  " + job + ":") in SplitLines(text) ==>
      var patched := SetIf(SplitLines(text), Marker(job), Desired(expression));
      SetJobIf(text, job, expression) == Glued(patched, seq(|patched|, _ => "\n"))
  {
    hide SplitLines, SetIf, Desired, JoinLines;
    var patched := SetIf(SplitLines(text), Marker(job), Desired(expression));
    if Marker(job) in SplitLines(text) {
      NotEmptied(SplitLines(text), Marker(job), Desired(expression));
      JoinGlues(patched);
    }
  }
}
