/** What applying the job conditions does to a workflow: one condition per job, nothing else moved, in any order. */
module WorkflowTheorems {
  import opened PythonText
  import opened WorkflowPatch

  // ---------------------------------------------------------------- splitting undoes joining

  predicate NoBreaks(line: string) {
    forall i :: 0 <= i < |line| ==> !IsBreak(line[i])
  }

  predicate AllLines(lines: seq<string>) {
    forall i :: 0 <= i < |lines| ==> NoBreaks(lines[i])
  }

  lemma {:induction false} SplitIsLines(text: string)
    ensures AllLines(SplitLines(text))
    decreases |text|
  {
    hide IsBreak, FirstBreak;
    if text != "" {
      var i := FirstBreak(text);
      assert NoBreaks(text[..i]);
      if i < |text| {
        var next := if text[i] == '\r' && i + 1 < |text| && text[i + 1] == '\n' then i + 2 else i + 1;
        SplitIsLines(text[next..]);
      }
    }
  }

  lemma {:induction false} FirstBreakIs(line: string, rest: string)
    requires NoBreaks(line)
    ensures FirstBreak(line + "\n" + rest) == |line|
  {
    var text := line + "\n" + rest;
    if line == "" {
      assert text[0] == '\n';
    } else {
      assert text[0] == line[0] && text[1..] == line[1..] + "\n" + rest;
      FirstBreakIs(line[1..], rest);
    }
  }

  lemma SplitFirst(line: string, rest: string)
    requires NoBreaks(line)
    ensures SplitLines(line + "\n" + rest) == [line] + SplitLines(rest)
  {
    hide IsBreak;
    var text := line + "\n" + rest;
    FirstBreakIs(line, rest);
    assert text[|line|] == '\n' && text[..|line|] == line && text[|line| + 1..] == rest;
  }

  /** The lines a text was joined from are the lines it splits into. */
  lemma {:induction false} SplitJoin(lines: seq<string>)
    requires lines != [] && AllLines(lines)
    ensures SplitLines(JoinLines(lines)) == lines
  {
    assert SplitLines("") == [];
    hide SplitLines, NoBreaks;
    if |lines| == 1 {
      SplitFirst(lines[0], "");
      assert lines[0] + "\n" + "" == JoinLines(lines);
    } else {
      SplitFirst(lines[0], JoinLines(lines[1..]));
      SplitJoin(lines[1..]);
    }
  }

  // ---------------------------------------------------------------- job names and conditions

  /** A name that does not push its marker out of the job level. */
  predicate JobName(job: string) {
    |job| < 2 || job[0] != ' ' || job[1] != ' '
  }

  lemma {:induction false} StripRightEnds(line: string, last: char)
    requires !IsSpace(last)
    ensures StripRight(line + [last]) == line + [last]
  {
  }

  lemma {:induction false} StripLeftEnds(line: string, last: char)
    requires !IsSpace(last)
    ensures EndsWith(StripLeft(line + [last]), last)
  {
    if line != "" && IsSpace(line[0]) {
      assert (line + [last])[1..] == line[1..] + [last];
      StripLeftEnds(line[1..], last);
    }
  }

  lemma MarkerEndsBlock(job: string)
    requires JobName(job)
    ensures EndsBlock(Marker(job))
  {
    assert !IsSpace(':');
    hide IsSpace;
    var line := "  " + job;
    assert Marker(job) == line + [':'];
    StripRightEnds(line, ':');
    StripLeftEnds(line, ':');
    assert Marker(job)[..2] == "  ";
    assert Marker(job)[2 + |job|] == ':';
    assert |job| >= 2 ==> Marker(job)[2] == job[0] && Marker(job)[3] == job[1];
    assert "    "[2] == ' ' && "    "[3] == ' ';
  }

  lemma MarkerInjective(a: string, b: string)
    ensures Marker(a) == Marker(b) <==> a == b
  {
    assert Marker(a)[2..|Marker(a)| - 1] == a;
    assert Marker(b)[2..|Marker(b)| - 1] == b;
  }

  /** What the theorems need of a written condition line. */
  predicate ConditionLine(desired: string) {
    IsCondition(desired) && !EndsBlock(desired)
  }

  lemma DesiredLine(expression: string)
    ensures ConditionLine(Desired(expression))
    ensures NoBreaks(expression) ==> NoBreaks(Desired(expression))
  {
    var desired := Desired(expression);
    assert desired[..7] == "    if:";
    assert desired[..4] == "    ";
    assert NoBreaks("    if: ${{ ") && NoBreaks(" }}");
    hide IsBreak, EndsBlock, Strip, IsCondition;
  }

  // ---------------------------------------------------------------- one block

  function Conditions(block: seq<string>): seq<string> {
    if block == [] then []
    else (if IsCondition(block[0]) then [block[0]] else []) + Conditions(block[1..])
  }

  lemma HeadFirst(head: string, tail: seq<string>)
    ensures Conditions([head] + tail) == (if IsCondition(head) then [head] else []) + Conditions(tail)
    ensures WithoutConditions([head] + tail) == (if IsCondition(head) then [] else [head]) + WithoutConditions(tail)
  {
    hide IsCondition;
    assert ([head] + tail)[1..] == tail;
  }

  lemma {:induction false} ConditionsConcat(a: seq<string>, b: seq<string>)
    ensures Conditions(a + b) == Conditions(a) + Conditions(b)
    ensures WithoutConditions(a + b) == WithoutConditions(a) + WithoutConditions(b)
  {
    if a == [] {
      assert a + b == b;
    } else {
      hide IsCondition, Conditions, WithoutConditions;
      assert a == [a[0]] + a[1..] && a + b == [a[0]] + (a[1..] + b);
      HeadFirst(a[0], a[1..]);
      HeadFirst(a[0], a[1..] + b);
      ConditionsConcat(a[1..], b);
    }
  }

  lemma {:induction false} WithoutConditionsHasNone(block: seq<string>)
    ensures Conditions(WithoutConditions(block)) == []
    ensures WithoutConditions(WithoutConditions(block)) == WithoutConditions(block)
    ensures forall line :: line in WithoutConditions(block) ==> line in block
  {
    hide IsCondition;
    if block != [] {
      var head, tail := if IsCondition(block[0]) then [] else [block[0]], WithoutConditions(block[1..]);
      WithoutConditionsHasNone(block[1..]);
      ConditionsConcat(head, tail);
    }
  }

  lemma {:induction false} NoConditions(block: seq<string>)
    requires !HasCondition(block)
    ensures Conditions(block) == [] && WithoutConditions(block) == block
  {
    hide IsCondition;
    if block != [] {
      assert !IsCondition(block[0]);
      forall i | 0 <= i < |block[1..]| ensures !IsCondition(block[1..][i]) { assert !IsCondition(block[i + 1]); }
      NoConditions(block[1..]);
    }
  }

  /** A patched block has one condition, the desired one, and its other lines in their old order. */
  lemma ConditionedBlock(block: seq<string>, desired: string)
    requires ConditionLine(desired)
    ensures Conditions(Conditioned(block, desired)) == [desired]
    ensures WithoutConditions(Conditioned(block, desired)) == WithoutConditions(block)
    ensures forall line :: line in Conditioned(block, desired) ==> line in block || line == desired
  {
    hide IsCondition, EndsBlock;
    var one := [desired];
    assert one[0] == desired && one[1..] == [];
    if HasCondition(block) {
      var i := FirstCondition(block);
      var before, first, after := block[..i], [block[i]], block[i + 1..];
      assert first[0] == block[i] && first[1..] == [];
      assert block == before + first + after;
      NoConditions(before);
      WithoutConditionsHasNone(after);
      ConditionsConcat(before + first, after);
      ConditionsConcat(before, first);
      ConditionsConcat(before + one, WithoutConditions(after));
      ConditionsConcat(before, one);
    } else {
      NoConditions(block);
      ConditionsConcat(one, block);
    }
  }

  /** Patching a block again replaces the condition where it stands. */
  lemma ConditionedAgain(block: seq<string>, desired: string)
    requires ConditionLine(desired)
    ensures Conditioned(Conditioned(block, desired), desired) == Conditioned(block, desired)
  {
    hide IsCondition, EndsBlock, WithoutConditions;
    var once := Conditioned(block, desired);
    var i := if HasCondition(block) then FirstCondition(block) else 0;
    assert once[i] == desired;
    assert forall j :: 0 <= j < i ==> once[j] == block[j];
    assert forall j :: 0 <= j < i ==> block[..i][j] == block[j];
    FirstIs(once, i);
    if HasCondition(block) {
      WithoutConditionsHasNone(block[i + 1..]);
      assert once[i + 1..] == WithoutConditions(block[i + 1..]);
    } else {
      NoConditions(block);
      assert once[1..] == block;
    }
    assert once == once[..i] + [desired] + once[i + 1..];
  }

  // ---------------------------------------------------------------- the first block of a job

  /** A list of lines cut at the first block of a job. */
  predicate CutAt(lines: seq<string>, marker: string, before: seq<string>, block: seq<string>, after: seq<string>) {
    && lines == before + [marker] + block + after
    && marker !in before && InBlock(block) && (after != [] ==> EndsBlock(after[0]))
  }

  function FirstBlock(lines: seq<string>, marker: string): seq<string>
  {
    if marker in lines then
      var rest := lines[Find(lines, marker) + 1..];
      rest[..BlockLength(rest)]
    else []
  }

  lemma Cut(lines: seq<string>, marker: string)
    returns (before: seq<string>, block: seq<string>, after: seq<string>)
    requires marker in lines
    ensures CutAt(lines, marker, before, block, after) && block == FirstBlock(lines, marker)
  {
    hide EndsBlock, Find, BlockLength, InBlock;
    var index := Find(lines, marker);
    assert index < |lines|;
    var rest := lines[index + 1..];
    before, block, after := lines[..index], FirstBlock(lines, marker), rest[BlockLength(rest)..];
    assert lines == before + [marker] + rest;
  }

  /** A change of the lines of one block. */
  type Edit = seq<string> -> seq<string>

  /** The list with the first block of a job changed. */
  function EditBlock(lines: seq<string>, marker: string, edit: Edit): seq<string> {
    var index := Find(lines, marker);
    if index == |lines| then lines
    else
      var after := lines[index + 1..];
      var n := BlockLength(after);
      lines[..index + 1] + edit(after[..n]) + after[n..]
  }

  /** The edit starts no new job. */
  ghost predicate StaysInBlock(edit: Edit) {
    forall block :: InBlock(block) ==> InBlock(edit(block))
  }

  /** The edit that the patch makes, and the one that takes all conditions away. */
  function Setting(desired: string): Edit {
    block => Conditioned(block, desired)
  }

  function Removing(): Edit {
    block => WithoutConditions(block)
  }

  lemma SetIsEdit(lines: seq<string>, marker: string, desired: string)
    ensures SetIf(lines, marker, desired) == EditBlock(lines, marker, Setting(desired))
  {
    hide Conditioned, BlockLength, Find;
  }

  /** The edit, and the first block, of a list that is cut. */
  lemma CutMeans(lines: seq<string>, marker: string, before: seq<string>, block: seq<string>, after: seq<string>, edit: Edit)
    requires CutAt(lines, marker, before, block, after)
    ensures marker in lines && FirstBlock(lines, marker) == block
    ensures EditBlock(lines, marker, edit) == before + [marker] + edit(block) + after
  {
    hide EndsBlock, BlockLength;
    var index := |before|;
    assert lines[index] == marker && lines[..index] == before && lines[..index + 1] == before + [marker];
    FindIs(lines, marker, index);
    var rest := lines[index + 1..];
    assert rest[..|block|] == block && rest[|block|..] == after;
    BlockLengthIs(rest, |block|);
  }

  lemma SettingStays(desired: string)
    requires ConditionLine(desired)
    ensures StaysInBlock(Setting(desired))
  {
    hide EndsBlock, IsCondition, Conditioned;
    forall block: seq<string> | InBlock(block) ensures InBlock(Setting(desired)(block)) {
      ConditionedBlock(block, desired);
      assert forall line :: line in block ==> !EndsBlock(line);
    }
  }

  lemma RemovingStays()
    ensures StaysInBlock(Removing())
  {
    hide EndsBlock, IsCondition, WithoutConditions;
    forall block: seq<string> | InBlock(block) ensures InBlock(Removing()(block)) {
      WithoutConditionsHasNone(block);
      assert forall line :: line in block ==> !EndsBlock(line);
    }
  }

  /** The frame of one patch: only the conditions of the job's first block change. */
  lemma PatchFrame(lines: seq<string>, marker: string, desired: string)
    returns (before: seq<string>, block: seq<string>, patched: seq<string>, after: seq<string>)
    requires marker in lines && ConditionLine(desired)
    ensures CutAt(lines, marker, before, block, after)
    ensures CutAt(SetIf(lines, marker, desired), marker, before, patched, after)
    ensures Conditions(patched) == [desired] && WithoutConditions(patched) == WithoutConditions(block)
  {
    hide EndsBlock, IsCondition, SetIf, Conditioned, EditBlock;
    before, block, after := Cut(lines, marker);
    patched := Conditioned(block, desired);
    SetIsEdit(lines, marker, desired);
    CutMeans(lines, marker, before, block, after, Setting(desired));
    ConditionedBlock(block, desired);
    SettingStays(desired);
    assert InBlock(Setting(desired)(block));
  }

  lemma AbsentStays(lines: seq<string>, marker: string, edit: Edit)
    requires marker !in lines
    ensures EditBlock(lines, marker, edit) == lines
  {
  }

  /** Two edits of the same block, one after the other, are their composition. */
  lemma EditTwice(lines: seq<string>, marker: string, first: Edit, second: Edit, both: Edit)
    requires StaysInBlock(first) && forall block :: second(first(block)) == both(block)
    ensures EditBlock(EditBlock(lines, marker, first), marker, second) == EditBlock(lines, marker, both)
  {
    hide EndsBlock, EditBlock, InBlock;
    if marker in lines {
      var before, block, after := Cut(lines, marker);
      CutMeans(lines, marker, before, block, after, first);
      CutMeans(lines, marker, before, block, after, both);
      CutMeans(EditBlock(lines, marker, first), marker, before, first(block), after, second);
    } else {
      AbsentStays(lines, marker, first);
      AbsentStays(lines, marker, second);
      AbsentStays(lines, marker, both);
    }
  }

  /** Patching a job a second time changes nothing. */
  lemma PatchAgain(lines: seq<string>, marker: string, desired: string)
    requires ConditionLine(desired)
    ensures SetIf(SetIf(lines, marker, desired), marker, desired) == SetIf(lines, marker, desired)
  {
    hide EndsBlock, IsCondition, Conditioned, SetIf, EditBlock, StaysInBlock;
    SettingStays(desired);
    forall block ensures Setting(desired)(Setting(desired)(block)) == Setting(desired)(block) {
      ConditionedAgain(block, desired);
    }
    EditTwice(lines, marker, Setting(desired), Setting(desired), Setting(desired));
    SetIsEdit(lines, marker, desired);
    SetIsEdit(SetIf(lines, marker, desired), marker, desired);
  }

  /** Removing the conditions after setting one is removing them at once. */
  lemma RemoveSet(lines: seq<string>, marker: string, desired: string)
    requires ConditionLine(desired)
    ensures EditBlock(SetIf(lines, marker, desired), marker, Removing()) == EditBlock(lines, marker, Removing())
  {
    hide EndsBlock, IsCondition, Conditioned, SetIf, EditBlock, StaysInBlock, WithoutConditions;
    SettingStays(desired);
    forall block ensures Removing()(Setting(desired)(block)) == Removing()(block) {
      ConditionedBlock(block, desired);
    }
    EditTwice(lines, marker, Setting(desired), Removing(), Removing());
    SetIsEdit(lines, marker, desired);
  }

  /** The lines that start jobs are the same before and after. */
  lemma MarkersStay(lines: seq<string>, marker: string, edit: Edit, line: string)
    requires StaysInBlock(edit) && EndsBlock(line)
    ensures line in EditBlock(lines, marker, edit) <==> line in lines
  {
    hide EndsBlock, EditBlock;
    if marker in lines {
      var before, block, after := Cut(lines, marker);
      CutMeans(lines, marker, before, block, after, edit);
      assert forall i :: 0 <= i < |block| ==> block[i] != line;
      assert InBlock(edit(block));
      assert line !in edit(block);
    } else {
      AbsentStays(lines, marker, edit);
    }
  }

  // ---------------------------------------------------------------- two jobs

  /** Two edits commute when the first block of `a` comes before the first block of `b`. */
  lemma CommuteOrdered(lines: seq<string>, a: string, f: Edit, b: string, g: Edit)
    requires EndsBlock(a) && EndsBlock(b) && a != b && StaysInBlock(f) && StaysInBlock(g)
    requires a in lines && b !in lines[..Find(lines, a)]
    ensures EditBlock(EditBlock(lines, a, f), b, g) == EditBlock(EditBlock(lines, b, g), a, f)
    ensures b in lines ==> FirstBlock(EditBlock(lines, a, f), b) == FirstBlock(lines, b)
    ensures FirstBlock(EditBlock(lines, b, g), a) == FirstBlock(lines, a)
  {
    hide EndsBlock, EditBlock, FirstBlock, StaysInBlock;
    var before, block, after := Cut(lines, a);
    assert before == lines[..Find(lines, a)] by {
      assert lines[|before|] == a && lines[..|before|] == before;
      FindIs(lines, a, |before|);
    }
    if b in lines {
      assert b in after by { assert forall i :: 0 <= i < |block| ==> block[i] != b; }
      CommuteCut(lines, a, f, b, g, before, block, after);
    } else {
      AbsentStays(lines, b, g);
      MarkersStay(lines, a, f, b);
      AbsentStays(EditBlock(lines, a, f), b, g);
    }
  }

  lemma CommuteCut(lines: seq<string>, a: string, f: Edit, b: string, g: Edit,
                   before: seq<string>, block: seq<string>, after: seq<string>)
    requires EndsBlock(a) && EndsBlock(b) && a != b && StaysInBlock(f) && StaysInBlock(g)
    requires CutAt(lines, a, before, block, after) && b !in before && b in after
    ensures EditBlock(EditBlock(lines, a, f), b, g) == EditBlock(EditBlock(lines, b, g), a, f)
    ensures FirstBlock(EditBlock(lines, a, f), b) == FirstBlock(lines, b)
    ensures FirstBlock(EditBlock(lines, b, g), a) == FirstBlock(lines, a)
  {
    hide EndsBlock, EditBlock, FirstBlock;
    var between, block2, after2 := Cut(after, b);
    assert forall i :: 0 <= i < |block| ==> block[i] != b;
    assert InBlock(f(block));
    assert forall i :: 0 <= i < |f(block)| ==> f(block)[i] != b;
    PatchAfter(lines, a, f, b, g, before, block, between, block2, after2);
    CutMeans(lines, a, before, block, after, f);
    PatchLater(lines, a, f, b, g, before, block, between, block2, after2);
  }

  /** Everything two jobs' cuts have in common: `b` comes after the block of `a`. */
  predicate TwoCuts(lines: seq<string>, a: string, b: string, before: seq<string>, block: seq<string>,
                    between: seq<string>, block2: seq<string>, after2: seq<string>)
  {
    && CutAt(lines, a, before, block, between + [b] + block2 + after2)
    && CutAt(between + [b] + block2 + after2, b, between, block2, after2)
  }

  /** `a` edited first, then `b`. */
  lemma PatchAfter(lines: seq<string>, a: string, f: Edit, b: string, g: Edit, before: seq<string>,
                   block: seq<string>, between: seq<string>, block2: seq<string>, after2: seq<string>)
    requires TwoCuts(lines, a, b, before, block, between, block2, after2)
    requires b !in before && b != a && b !in block && b !in f(block)
    ensures FirstBlock(EditBlock(lines, a, f), b) == FirstBlock(lines, b) == block2
    ensures EditBlock(EditBlock(lines, a, f), b, g)
         == before + [a] + f(block) + between + [b] + g(block2) + after2
  {
    hide EndsBlock, EditBlock, FirstBlock, InBlock;
    var after := between + [b] + block2 + after2;
    CutMeans(lines, a, before, block, after, f);
    var head := before + [a] + f(block) + between;
    assert EditBlock(lines, a, f) == head + [b] + block2 + after2;
    CutMeans(EditBlock(lines, a, f), b, head, block2, after2, g);
    var start := before + [a] + block + between;
    assert lines == start + [b] + block2 + after2;
    CutMeans(lines, b, start, block2, after2, g);
  }

  /** `b` edited first, then `a`. */
  lemma PatchLater(lines: seq<string>, a: string, f: Edit, b: string, g: Edit, before: seq<string>,
                   block: seq<string>, between: seq<string>, block2: seq<string>, after2: seq<string>)
    requires TwoCuts(lines, a, b, before, block, between, block2, after2) && EndsBlock(b)
    requires b !in before && b != a && b !in block
    ensures FirstBlock(EditBlock(lines, b, g), a) == block
    ensures EditBlock(EditBlock(lines, b, g), a, f)
         == before + [a] + f(block) + between + [b] + g(block2) + after2
  {
    hide EndsBlock, EditBlock, FirstBlock, InBlock;
    var start := before + [a] + block + between;
    assert lines == start + [b] + block2 + after2;
    CutMeans(lines, b, start, block2, after2, g);
    var rest := between + [b] + g(block2) + after2;
    assert EditBlock(lines, b, g) == before + [a] + block + rest;
    assert EndsBlock(rest[0]) by {
      if between != [] { assert rest[0] == (between + [b] + block2 + after2)[0]; }
    }
    CutMeans(EditBlock(lines, b, g), a, before, block, rest, f);
    assert before + [a] + f(block) + rest == before + [a] + f(block) + between + [b] + g(block2) + after2;
  }

  /** Edits of the first blocks of two different jobs commute, and neither touches the other's block. */
  lemma CommuteEdits(lines: seq<string>, a: string, f: Edit, b: string, g: Edit)
    requires EndsBlock(a) && EndsBlock(b) && a != b && StaysInBlock(f) && StaysInBlock(g)
    ensures EditBlock(EditBlock(lines, a, f), b, g) == EditBlock(EditBlock(lines, b, g), a, f)
    ensures b in lines ==> FirstBlock(EditBlock(lines, a, f), b) == FirstBlock(lines, b)
  {
    hide EndsBlock, EditBlock, FirstBlock, StaysInBlock;
    MarkersStay(lines, a, f, b);
    MarkersStay(lines, b, g, a);
    if a !in lines {
      AbsentStays(lines, a, f);
      AbsentStays(EditBlock(lines, b, g), a, f);
    } else if b !in lines || Find(lines, a) <= Find(lines, b) {
      BeforeFirst(lines, a, b);
      CommuteOrdered(lines, a, f, b, g);
    } else {
      BeforeFirst(lines, b, a);
      CommuteOrdered(lines, b, g, a, f);
    }
  }

  lemma BeforeFirst(lines: seq<string>, a: string, b: string)
    requires b !in lines || Find(lines, a) <= Find(lines, b)
    ensures b !in lines[..Find(lines, a)]
  {
    assert b in lines ==> lines[..Find(lines, a)] <= lines[..Find(lines, b)];
  }

  /** The patches of two different jobs commute and leave each other's first block alone. */
  lemma Commute(lines: seq<string>, a: string, x: string, b: string, y: string)
    requires EndsBlock(a) && EndsBlock(b) && a != b && ConditionLine(x) && ConditionLine(y)
    ensures SetIf(SetIf(lines, a, x), b, y) == SetIf(SetIf(lines, b, y), a, x)
    ensures b in SetIf(lines, a, x) <==> b in lines
    ensures b in lines ==> FirstBlock(SetIf(lines, a, x), b) == FirstBlock(lines, b)
  {
    hide EndsBlock, IsCondition, Conditioned, SetIf, FirstBlock, EditBlock, StaysInBlock;
    SettingStays(x);
    SettingStays(y);
    CommuteEdits(lines, a, Setting(x), b, Setting(y));
    MarkersStay(lines, a, Setting(x), b);
    SetIsEdit(lines, a, x);
    SetIsEdit(lines, b, y);
    SetIsEdit(SetIf(lines, a, x), b, y);
    SetIsEdit(SetIf(lines, b, y), a, x);
  }

  /** The patch leaves the lines that start jobs. */
  lemma PatchMarkers(lines: seq<string>, marker: string, desired: string, line: string)
    requires ConditionLine(desired) && EndsBlock(line)
    ensures line in SetIf(lines, marker, desired) <==> line in lines
    ensures marker !in lines ==> SetIf(lines, marker, desired) == lines
  {
    hide EndsBlock, IsCondition, Conditioned, SetIf, EditBlock, StaysInBlock;
    SettingStays(desired);
    SetIsEdit(lines, marker, desired);
    MarkersStay(lines, marker, Setting(desired), line);
    if marker !in lines { AbsentStays(lines, marker, Setting(desired)); }
  }

  // ---------------------------------------------------------------- whole texts

  predicate Written(expression: string) {
    NoBreaks(expression)
  }

  lemma Unpatched(lines: seq<string>, marker: string, desired: string)
    requires marker !in lines
    ensures SetIf(lines, marker, desired) == lines
  {
  }

  lemma PatchedIsLines(lines: seq<string>, marker: string, desired: string)
    requires AllLines(lines) && NoBreaks(desired) && ConditionLine(desired)
    ensures AllLines(SetIf(lines, marker, desired))
    ensures lines != [] ==> SetIf(lines, marker, desired) != []
  {
    hide EndsBlock, IsCondition, Conditioned, SetIf, FirstBlock, NoBreaks;
    if marker in lines {
      var before, block, after := Cut(lines, marker);
      SetIsEdit(lines, marker, desired);
      CutMeans(lines, marker, before, block, after, Setting(desired));
      ConditionedBlock(block, desired);
      assert forall line :: line in lines ==> NoBreaks(line);
      assert forall line :: line in before || line == marker || line in block || line in after ==> line in lines;
      assert forall line :: line in SetIf(lines, marker, desired) ==> line in lines || line == desired;
    } else {
      Unpatched(lines, marker, desired);
    }
  }

  /** The lines of a patched text are the patched lines. */
  lemma PatchedLines(text: string, job: string, expression: string)
    requires Written(expression)
    ensures SplitLines(SetJobIf(text, job, expression))
         == SetIf(SplitLines(text), Marker(job), Desired(expression))
  {
    hide SplitLines, SetIf, Marker, Desired, IsCondition, EndsBlock, NoBreaks, JoinLines;
    var lines := SplitLines(text);
    SplitIsLines(text);
    DesiredLine(expression);
    assert NoBreaks(expression);
    PatchedIsLines(lines, Marker(job), Desired(expression));
    if Marker(job) in lines {
      SplitJoin(SetIf(lines, Marker(job), Desired(expression)));
    } else {
      Unpatched(lines, Marker(job), Desired(expression));
    }
  }

  lemma TextAgain(text: string, job: string, expression: string)
    requires Written(expression) && JobName(job)
    ensures SetJobIf(SetJobIf(text, job, expression), job, expression) == SetJobIf(text, job, expression)
  {
    hide SplitLines, SetIf, Marker, Desired, IsCondition, EndsBlock, NoBreaks, JoinLines;
    DesiredLine(expression);
    MarkerEndsBlock(job);
    PatchedLines(text, job, expression);
    PatchAgain(SplitLines(text), Marker(job), Desired(expression));
    PatchMarkers(SplitLines(text), Marker(job), Desired(expression), Marker(job));
  }

  lemma TextCommute(text: string, a: string, x: string, b: string, y: string)
    requires Written(x) && Written(y) && JobName(a) && JobName(b) && a != b
    ensures SetJobIf(SetJobIf(text, a, x), b, y) == SetJobIf(SetJobIf(text, b, y), a, x)
  {
    hide SplitLines, SetIf, Marker, Desired, IsCondition, EndsBlock, NoBreaks, JoinLines;
    var lines := SplitLines(text);
    DesiredLine(x);
    DesiredLine(y);
    MarkerEndsBlock(a);
    MarkerEndsBlock(b);
    MarkerInjective(a, b);
    PatchedLines(text, a, x);
    PatchedLines(text, b, y);
    Commute(lines, Marker(a), Desired(x), Marker(b), Desired(y));
    PatchMarkers(lines, Marker(a), Desired(x), Marker(b));
    PatchMarkers(lines, Marker(b), Desired(y), Marker(a));
  }

  // ---------------------------------------------------------------- all the conditions

  datatype Condition = Condition(job: string, expression: string)

  /** The entries of the source's dictionary: keys do not repeat. */
  predicate Usable(conditions: seq<Condition>) {
    && (forall i, j :: 0 <= i < j < |conditions| ==> conditions[i].job != conditions[j].job)
    && (forall i :: 0 <= i < |conditions| ==> JobName(conditions[i].job) && Written(conditions[i].expression))
  }

  function Apply(text: string, condition: Condition): string {
    SetJobIf(text, condition.job, condition.expression)
  }

  function ApplyAll(text: string, conditions: seq<Condition>): string {
    if conditions == [] then text
    else Apply(ApplyAll(text, conditions[..|conditions| - 1]), conditions[|conditions| - 1])
  }

  /** The loop over the conditions. */
  method PatchJobs(text: string, conditions: seq<Condition>) returns (patched: string)
    ensures patched == ApplyAll(text, conditions)
  {
    hide SetJobIf;
    patched := text;
    for i := 0 to |conditions|
      invariant patched == ApplyAll(text, conditions[..i])
    {
      assert conditions[..i + 1][..i] == conditions[..i];
      patched := PatchJobIf(patched, conditions[i].job, conditions[i].expression);
    }
    assert conditions[..|conditions|] == conditions;
  }

  lemma ApplyOne(text: string, conditions: seq<Condition>, c: Condition)
    ensures ApplyAll(text, conditions + [c]) == Apply(ApplyAll(text, conditions), c)
  {
    assert (conditions + [c])[..|conditions|] == conditions;
  }

  /** A condition for another job can be applied before or after all of these. */
  lemma {:induction false} ApplyEarlier(text: string, conditions: seq<Condition>, c: Condition)
    requires Usable(conditions + [c])
    ensures ApplyAll(Apply(text, c), conditions) == Apply(ApplyAll(text, conditions), c)
  {
    hide JobName, Written, SetJobIf;
    if conditions != [] {
      var n := |conditions| - 1;
      var front, last := conditions[..n], conditions[n];
      var all := conditions + [c];
      assert all[n] == last && all[n + 1] == c;
      assert forall i :: 0 <= i < n ==> (front + [c])[i] == all[i];
      ApplyEarlier(text, front, c);
      TextCommute(ApplyAll(text, front), c.job, c.expression, last.job, last.expression);
    }
  }

  /** Every condition of the list holds at the end: applying it again would change nothing. */
  lemma {:induction false} Settled(text: string, conditions: seq<Condition>, k: nat)
    requires Usable(conditions) && k < |conditions|
    ensures Apply(ApplyAll(text, conditions), conditions[k]) == ApplyAll(text, conditions)
  {
    hide JobName, Written, SetJobIf;
    var n := |conditions| - 1;
    var front, last, c := conditions[..n], conditions[n], conditions[k];
    if k == n {
      TextAgain(ApplyAll(text, front), c.job, c.expression);
    } else {
      assert front[k] == c;
      Settled(text, front, k);
      TextCommute(ApplyAll(text, front), c.job, c.expression, last.job, last.expression);
    }
  }

  lemma {:induction false} SettledAll(text: string, conditions: seq<Condition>, applied: seq<Condition>)
    requires Usable(conditions) && applied <= conditions
    ensures ApplyAll(ApplyAll(text, conditions), applied) == ApplyAll(text, conditions)
  {
    hide JobName, Written, SetJobIf, Usable;
    if applied != [] {
      SettledAll(text, conditions, applied[..|applied| - 1]);
      Settled(text, conditions, |applied| - 1);
    }
  }

  /** Patching a patched workflow again changes nothing. */
  lemma Idempotent(text: string, conditions: seq<Condition>)
    requires Usable(conditions)
    ensures ApplyAll(ApplyAll(text, conditions), conditions) == ApplyAll(text, conditions)
  {
    SettledAll(text, conditions, conditions);
  }

  /** A condition can be taken out of the middle and applied last. */
  lemma {:induction false} ApplyMiddle(text: string, left: seq<Condition>, c: Condition, right: seq<Condition>)
    requires Usable(left + [c] + right)
    ensures ApplyAll(text, left + [c] + right) == Apply(ApplyAll(text, left + right), c)
  {
    hide JobName, Written, SetJobIf;
    var all := left + [c] + right;
    if right == [] {
      assert all == left + [c] && left + right == left;
      ApplyOne(text, left, c);
    } else {
      var n := |right| - 1;
      var front, last := right[..n], right[n];
      assert all == left + [c] + front + [last] && left + right == left + front + [last];
      assert all[|left|] == c && all[|all| - 1] == last;
      forall i | 0 <= i < |left + [c] + front| ensures (left + [c] + front)[i] == all[i] {}
      ApplyMiddle(text, left, c, front);
      ApplyOne(text, left + [c] + front, last);
      ApplyOne(text, left + front, last);
      TextCommute(ApplyAll(text, left + front), c.job, c.expression, last.job, last.expression);
    }
  }

  ghost predicate SameEntries(conditions: seq<Condition>, other: seq<Condition>) {
    forall c :: c in conditions <==> c in other
  }

  lemma HasEntries(conditions: seq<Condition>)
    ensures conditions == [] || exists c :: c in conditions
  {
    assert conditions == [] || conditions[0] in conditions;
  }

  lemma TakeOut(conditions: seq<Condition>, other: seq<Condition>, k: nat)
    requires Usable(conditions) && Usable(other) && SameEntries(conditions, other)
    requires conditions != [] && k < |other| && other[k] == conditions[|conditions| - 1]
    ensures Usable(conditions[..|conditions| - 1]) && Usable(other[..k] + other[k + 1..])
    ensures SameEntries(conditions[..|conditions| - 1], other[..k] + other[k + 1..])
  {
    hide JobName, Written;
    var front, last, rest := conditions[..|conditions| - 1], conditions[|conditions| - 1], other[..k] + other[k + 1..];
    assert conditions == front + [last] && other == other[..k] + [last] + other[k + 1..];
    forall i, j | 0 <= i < j < |rest| ensures rest[i].job != rest[j].job {
      var p, q := if i < k then i else i + 1, if j < k then j else j + 1;
      assert rest[i] == other[p] && rest[j] == other[q];
    }
    forall i | 0 <= i < |rest| ensures JobName(rest[i].job) && Written(rest[i].expression) && rest[i] != last {
      var p := if i < k then i else i + 1;
      assert rest[i] == other[p];
    }
    assert last !in rest && last !in front;
    forall c ensures c in front <==> c in rest {
      assert c in front <==> c in conditions && c != last;
      assert c in rest <==> c in other && c != last;
    }
  }

  /** The order in which the conditions are applied does not matter. */
  lemma {:induction false} OrderIsIrrelevant(text: string, conditions: seq<Condition>, other: seq<Condition>)
    requires Usable(conditions) && Usable(other) && SameEntries(conditions, other)
    ensures ApplyAll(text, conditions) == ApplyAll(text, other)
    decreases |conditions|
  {
    hide JobName, Written, SetJobIf, Apply;
    if conditions == [] {
      HasEntries(other);
    } else {
      var n := |conditions| - 1;
      var last := conditions[n];
      assert last in other;
      var k :| 0 <= k < |other| && other[k] == last;
      TakeOut(conditions, other, k);
      OrderIsIrrelevant(text, conditions[..n], other[..k] + other[k + 1..]);
      assert other == other[..k] + [last] + other[k + 1..];
      ApplyMiddle(text, other[..k], last, other[k + 1..]);
    }
  }

  // ---------------------------------------------------------------- what the patched workflow holds

  function LinesAfter(text: string, conditions: seq<Condition>): seq<string> {
    SplitLines(ApplyAll(text, conditions))
  }

  /** What one more condition leaves alone. */
  lemma StepKeeps(text: string, c: Condition, job: string)
    requires JobName(c.job) && JobName(job) && Written(c.expression)
    ensures Marker(job) in SplitLines(Apply(text, c)) <==> Marker(job) in SplitLines(text)
    ensures job != c.job ==>
      FirstBlock(SplitLines(Apply(text, c)), Marker(job)) == FirstBlock(SplitLines(text), Marker(job))
    ensures WithoutConditions(SplitLines(Apply(text, c))) == WithoutConditions(SplitLines(text))
  {
    hide SplitLines, SetIf, Marker, Desired, IsCondition, EndsBlock, NoBreaks, JoinLines, SetJobIf;
    var lines, marker, desired := SplitLines(text), Marker(c.job), Desired(c.expression);
    DesiredLine(c.expression);
    MarkerEndsBlock(c.job);
    MarkerEndsBlock(job);
    MarkerInjective(c.job, job);
    PatchedLines(text, c.job, c.expression);
    PatchMarkers(lines, marker, desired, Marker(job));
    if job != c.job { Commute(lines, marker, desired, Marker(job), desired); }
    if marker in lines {
      var before, block, patched, after := PatchFrame(lines, marker, desired);
      KeptParts(before, marker, block, patched, after);
    }
  }

  lemma KeptParts(before: seq<string>, marker: string, block: seq<string>, patched: seq<string>, after: seq<string>)
    requires WithoutConditions(block) == WithoutConditions(patched)
    ensures WithoutConditions(before + [marker] + block + after) == WithoutConditions(before + [marker] + patched + after)
  {
    hide WithoutConditions;
    ConditionsConcat(before + [marker] + block, after);
    ConditionsConcat(before + [marker], block);
    ConditionsConcat(before + [marker] + patched, after);
    ConditionsConcat(before + [marker], patched);
  }

  /** The markers, the lines that are no conditions, and the first blocks of other jobs after all patches. */
  lemma {:induction false} JobsStay(text: string, conditions: seq<Condition>, job: string)
    requires Usable(conditions) && JobName(job)
    ensures Marker(job) in LinesAfter(text, conditions) <==> Marker(job) in SplitLines(text)
    ensures (forall i :: 0 <= i < |conditions| ==> conditions[i].job != job) ==>
      FirstBlock(LinesAfter(text, conditions), Marker(job)) == FirstBlock(SplitLines(text), Marker(job))
    ensures WithoutConditions(LinesAfter(text, conditions)) == WithoutConditions(SplitLines(text))
  {
    hide JobName, Written, Apply, SplitLines, FirstBlock, Marker, WithoutConditions;
    if conditions != [] {
      var n := |conditions| - 1;
      JobsStay(text, conditions[..n], job);
      StepKeeps(ApplyAll(text, conditions[..n]), conditions[n], job);
    }
  }

  /** Every listed job the file has ends up with exactly one condition in its first block: its own. */
  lemma EveryJobIsConditioned(text: string, conditions: seq<Condition>, k: nat)
    requires Usable(conditions) && k < |conditions|
    requires ("  " + conditions[k].job + ":") in SplitLines(text)
    ensures ("  " + conditions[k].job + ":") in LinesAfter(text, conditions)
    ensures Conditions(FirstBlock(LinesAfter(text, conditions), "  " + conditions[k].job + ":"))
         == ["    if: ${{ " + conditions[k].expression + " }}"]
  {
    assert Marker(conditions[k].job) == "  " + conditions[k].job + ":";
    assert Desired(conditions[k].expression) == "    if: ${{ " + conditions[k].expression + " }}";
    hide SplitLines, SetIf, Marker, Desired, IsCondition, EndsBlock, NoBreaks, SetJobIf, FirstBlock, Conditions;
    var c, patched := conditions[k], ApplyAll(text, conditions);
    JobsStay(text, conditions, c.job);
    Settled(text, conditions, k);
    PatchedLines(patched, c.job, c.expression);
    DesiredLine(c.expression);
    var lines := SplitLines(patched);
    var before, block, after0, after := PatchFrame(lines, Marker(c.job), Desired(c.expression));
    CutMeans(SetIf(lines, Marker(c.job), Desired(c.expression)), Marker(c.job), before, after0, after, Removing());
  }

  // ---------------------------------------------------------------- the frame of the whole patch

  /** The lines without the conditions of the listed jobs' first blocks; conditions anywhere else are kept. */
  function Stripped(lines: seq<string>, conditions: seq<Condition>): seq<string> {
    if conditions == [] then lines
    else
      EditBlock(Stripped(lines, conditions[..|conditions| - 1]), Marker(conditions[|conditions| - 1].job), Removing())
  }

  /** Stripping other jobs commutes with the patch of a job. */
  lemma {:induction false} StrippedPatch(lines: seq<string>, conditions: seq<Condition>, c: Condition)
    requires Usable(conditions + [c])
    ensures Stripped(SetIf(lines, Marker(c.job), Desired(c.expression)), conditions)
         == SetIf(Stripped(lines, conditions), Marker(c.job), Desired(c.expression))
  {
    hide JobName, Written, SetIf, EditBlock, Marker, Desired, StaysInBlock, Removing, Setting, EndsBlock;
    if conditions != [] {
      var n := |conditions| - 1;
      var front, last, all := conditions[..n], conditions[n], conditions + [c];
      assert all[n] == last && all[n + 1] == c;
      assert forall i :: 0 <= i < n ==> (front + [c])[i] == all[i];
      StrippedPatch(lines, front, c);
      var before := Stripped(lines, front);
      DesiredLine(c.expression);
      SettingStays(Desired(c.expression));
      RemovingStays();
      MarkerEndsBlock(c.job);
      MarkerEndsBlock(last.job);
      MarkerInjective(c.job, last.job);
      CommuteEdits(before, Marker(c.job), Setting(Desired(c.expression)), Marker(last.job), Removing());
      SetIsEdit(before, Marker(c.job), Desired(c.expression));
      SetIsEdit(EditBlock(before, Marker(last.job), Removing()), Marker(c.job), Desired(c.expression));
    }
  }

  lemma {:induction false} StrippedStays(text: string, conditions: seq<Condition>)
    requires Usable(conditions)
    ensures Stripped(LinesAfter(text, conditions), conditions) == Stripped(SplitLines(text), conditions)
  {
    hide JobName, Written, SetIf, EditBlock, Marker, Desired, Removing, SplitLines, SetJobIf;
    if conditions != [] {
      var n := |conditions| - 1;
      var front, last := conditions[..n], conditions[n];
      var marker, desired := Marker(last.job), Desired(last.expression);
      assert conditions == front + [last];
      StrippedStays(text, front);
      PatchedLines(ApplyAll(text, front), last.job, last.expression);
      StrippedPatch(LinesAfter(text, front), front, last);
      DesiredLine(last.expression);
      RemoveSet(Stripped(LinesAfter(text, front), front), marker, desired);
    }
  }

  /** The frame of the whole patch: all lines but the conditions of the listed jobs' first blocks are the same ones in
      the same order, condition-like lines elsewhere included; and a job that is not listed keeps its first block. */
  lemma OtherLinesStay(text: string, conditions: seq<Condition>, job: string)
    requires Usable(conditions) && JobName(job)
    ensures Stripped(LinesAfter(text, conditions), conditions) == Stripped(SplitLines(text), conditions)
    ensures Marker(job) in LinesAfter(text, conditions) <==> Marker(job) in SplitLines(text)
    ensures (forall i :: 0 <= i < |conditions| ==> conditions[i].job != job) ==>
      FirstBlock(LinesAfter(text, conditions), Marker(job)) == FirstBlock(SplitLines(text), Marker(job))
  {
    hide JobName, Written, Stripped, LinesAfter, FirstBlock, Marker, SplitLines;
    StrippedStays(text, conditions);
    JobsStay(text, conditions, job);
  }
}
