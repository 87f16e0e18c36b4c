/** Job conditions written into a workflow file (app/services/rustdesk_customizer.py:510-530, 710-725): a list of lines
    changed in place. */
module WorkflowPatch {
  import opened PythonText

  // ---------------------------------------------------------------- jobs and their blocks

  function Marker(job: string): string {
    "  " + job + ":"
  }

  /** The condition line the patch writes. */
  function Desired(expression: string): string {
    "    if: ${{ " + expression + " }}"
  }

  /** A line that starts the next job. */
  predicate EndsBlock(line: string) {
    StartsWith(line, "  ") && !StartsWith(line, "    ") && EndsWith(Strip(line), ':')
  }

  predicate IsCondition(line: string) {
    StartsWith(line, "    if:")
  }

  function Find(lines: seq<string>, line: string): (i: nat)
    ensures i <= |lines| && (i < |lines| ==> lines[i] == line) && line !in lines[..i]
  {
    if lines == [] || lines[0] == line then 0
    else
      assert forall rest: seq<string>, k: nat :: k <= |rest| ==> ([lines[0]] + rest)[..k + 1] == [lines[0]] + rest[..k];
      var i := 1 + Find(lines[1..], line);
      assert lines == [lines[0]] + lines[1..];
      i
  }

  predicate InBlock(lines: seq<string>) {
    forall i :: 0 <= i < |lines| ==> !EndsBlock(lines[i])
  }

  /** How many of these lines come before the next job. */
  function BlockLength(lines: seq<string>): (n: nat)
    ensures n <= |lines| && InBlock(lines[..n]) && (n < |lines| ==> EndsBlock(lines[n]))
  {
    if lines == [] || EndsBlock(lines[0]) then 0 else 1 + BlockLength(lines[1..])
  }

  function WithoutConditions(block: seq<string>): seq<string> {
    if block == [] then []
    else (if IsCondition(block[0]) then [] else [block[0]]) + WithoutConditions(block[1..])
  }

  predicate HasCondition(block: seq<string>) {
    exists i :: 0 <= i < |block| && IsCondition(block[i])
  }

  function FirstCondition(block: seq<string>): (i: nat)
    requires HasCondition(block)
    ensures i < |block| && IsCondition(block[i]) && !HasCondition(block[..i])
  {
    if IsCondition(block[0]) then 0 else 1 + FirstCondition(block[1..])
  }

  /** The first condition of a block becomes the desired one and the others go; without one it is put first. */
  function Conditioned(block: seq<string>, desired: string): seq<string> {
    if HasCondition(block) then
      var i := FirstCondition(block);
      block[..i] + [desired] + WithoutConditions(block[i + 1..])
    else [desired] + block
  }

  /** The patched list of lines. */
  function SetIf(lines: seq<string>, marker: string, desired: string): seq<string> {
    var index := Find(lines, marker);
    if index == |lines| then lines
    else
      var after := lines[index + 1..];
      var n := BlockLength(after);
      lines[..index + 1] + Conditioned(after[..n], desired) + after[n..]
  }

  function SetJobIf(text: string, job: string, expression: string): string {
    var lines := SplitLines(text);
    if Marker(job) in lines then
      assert SetIf(lines, Marker(job), Desired(expression)) != [];
      JoinLines(SetIf(lines, Marker(job), Desired(expression)))
    else text
  }

  // ---------------------------------------------------------------- the patch as the source runs it

  predicate NoneIn(lines: seq<string>, from: nat, to: nat)
    requires to <= |lines|
  {
    forall p :: from <= p < to ==> !IsCondition(lines[p])
  }

  /** These are the positions of the conditions between two positions, in order. */
  predicate Positions(lines: seq<string>, from: nat, to: nat, existing: seq<nat>)
    requires to <= |lines|
  {
    && (forall k :: 0 <= k < |existing| ==> from <= existing[k] < to && IsCondition(lines[existing[k]]))
    && (forall j, k :: 0 <= j < k < |existing| ==> existing[j] < existing[k])
    && (forall p :: from <= p < to && IsCondition(lines[p]) ==> p in existing)
  }

  /** Where the condition after number k stands, or the end. */
  function NextStop(existing: seq<nat>, k: nat, to: nat): nat {
    if k < |existing| then existing[k] else to
  }

  lemma Gap(lines: seq<string>, from: nat, to: nat, existing: seq<nat>, k: nat)
    requires to <= |lines| && Positions(lines, from, to, existing) && k < |existing|
    ensures existing[k] < NextStop(existing, k + 1, to) <= to
    ensures NoneIn(lines, existing[k] + 1, NextStop(existing, k + 1, to))
    ensures existing[0] < to && NoneIn(lines, from, existing[0])
  {
    hide IsCondition;
    var next := NextStop(existing, k + 1, to);
    assert forall p :: existing[k] < p < next ==> p !in existing;
  }

  lemma {:induction false} KeepAll(block: seq<string>, rest: seq<string>)
    requires NoneIn(block, 0, |block|)
    ensures WithoutConditions(block + rest) == block + WithoutConditions(rest)
  {
    hide IsCondition;
    if block == [] {
      assert block + rest == rest;
    } else {
      assert block[0] == (block + rest)[0] && (block + rest)[1..] == block[1..] + rest;
      KeepAll(block[1..], rest);
    }
  }

  /** One deletion: the conditions from position `at` on are gone once the ones from the next on are. */
  lemma DeletionStep(lines: seq<string>, at: nat, next: nat, to: nat)
    requires at < next <= to <= |lines| && IsCondition(lines[at]) && NoneIn(lines, at + 1, next)
    ensures lines[at + 1..next] + WithoutConditions(lines[next..to]) == WithoutConditions(lines[at..to])
    ensures WithoutConditions(lines[at..to]) == WithoutConditions(lines[at + 1..to])
  {
    hide IsCondition;
    KeepAll(lines[at + 1..next], lines[next..to]);
    assert lines[at + 1..next] + lines[next..to] == lines[at + 1..to];
    assert lines[at..to][0] == lines[at] && lines[at..to][1..] == lines[at + 1..to];
  }

  lemma ConditionedFrom(lines: seq<string>, start: nat, first: nat, blockEnd: nat, desired: string)
    requires start <= first < blockEnd <= |lines|
    requires NoneIn(lines, start, first) && IsCondition(lines[first])
    ensures Conditioned(lines[start..blockEnd], desired)
         == lines[start..first] + [desired] + WithoutConditions(lines[first + 1..blockEnd])
  {
    hide IsCondition, WithoutConditions;
    var block := lines[start..blockEnd];
    assert block[first - start] == lines[first];
    FirstIs(block, first - start);
    assert block[..first - start] == lines[start..first] && block[first - start + 1..] == lines[first + 1..blockEnd];
  }

  lemma {:induction false} FirstIs(block: seq<string>, i: nat)
    requires i < |block| && IsCondition(block[i]) && NoneIn(block, 0, i)
    ensures HasCondition(block) && FirstCondition(block) == i
  {
    hide IsCondition;
    assert forall j :: 0 <= j < |block| ==> block[..j] == block[..j];
  }

  lemma PositionsMean(lines: seq<string>, from: nat, to: nat, existing: seq<nat>)
    requires to <= |lines| && Positions(lines, from, to, existing)
    ensures forall k :: 0 <= k < |existing| ==> from <= existing[k] < to && IsCondition(lines[existing[k]])
    ensures forall k :: 0 < k < |existing| ==> existing[0] < existing[k]
  {
  }

  method FindConditions(lines: seq<string>, start: nat, blockEnd: nat) returns (existing: seq<nat>)
    requires start <= blockEnd <= |lines|
    ensures Positions(lines, start, blockEnd, existing)
  {
    hide IsCondition;
    existing := [];
    for probe := start to blockEnd
      invariant Positions(lines, start, probe, existing)
    {
      if IsCondition(lines[probe]) { existing := existing + [probe]; }
    }
  }

  /** The list while the deletions run: the conditions from `next` on are gone. */
  predicate Deleted(original: seq<string>, first: nat, desired: string, next: nat, to: nat, lines: seq<string>) {
    && first < next <= to <= |original|
    && lines == original[first := desired][..next] + WithoutConditions(original[next..to]) + original[to..]
  }

  lemma NothingDeleted(original: seq<string>, first: nat, desired: string, to: nat)
    requires first < to <= |original|
    ensures Deleted(original, first, desired, to, to, original[first := desired])
  {
    var lines := original[first := desired];
    assert original[to..to] == [];
    assert lines == lines[..to] + lines[to..];
  }

  lemma DeleteOne(original: seq<string>, first: nat, desired: string, at: nat, next: nat, to: nat, lines: seq<string>)
    requires Deleted(original, first, desired, next, to, lines) && first < at < next
    requires original[at + 1..next] + WithoutConditions(original[next..to]) == WithoutConditions(original[at..to])
    ensures |lines| > at
    ensures Deleted(original, first, desired, at, to, lines[..at] + lines[at + 1..])
  {
    hide WithoutConditions;
    var replaced := original[first := desired];
    assert lines[..at] == replaced[..at];
    assert lines[at + 1..] == original[at + 1..next] + WithoutConditions(original[next..to]) + original[to..];
  }

  lemma AllDeleted(original: seq<string>, start: nat, first: nat, desired: string, next: nat, to: nat, lines: seq<string>)
    requires start <= first && Deleted(original, first, desired, next, to, lines)
    requires original[first + 1..next] + WithoutConditions(original[next..to]) == WithoutConditions(original[first + 1..to])
    ensures lines == original[..start]
      + (original[start..first] + [desired] + WithoutConditions(original[first + 1..to])) + original[to..]
  {
    hide WithoutConditions;
    assert original[first := desired][..next]
        == original[..start] + original[start..first] + [desired] + original[first + 1..next];
  }

  lemma NoneFound(lines: seq<string>, start: nat, blockEnd: nat, existing: seq<nat>, desired: string)
    requires start <= blockEnd <= |lines| && Positions(lines, start, blockEnd, existing) && existing == []
    ensures Conditioned(lines[start..blockEnd], desired) == [desired] + lines[start..blockEnd]
  {
    hide IsCondition;
    var block := lines[start..blockEnd];
    forall i | 0 <= i < |block| ensures !IsCondition(block[i]) { assert block[i] == lines[start + i]; }
  }

  /** The block's conditions are replaced and deleted in place, from the last one back. */
  method PatchBlock(original: seq<string>, start: nat, blockEnd: nat, desired: string) returns (lines: seq<string>)
    requires start <= blockEnd <= |original|
    ensures lines == original[..start] + Conditioned(original[start..blockEnd], desired) + original[blockEnd..]
  {
    hide IsCondition, WithoutConditions, Conditioned, Positions, Deleted;
    lines := original;
    var existing := FindConditions(lines, start, blockEnd);
    if |existing| > 0 {
      PositionsMean(original, start, blockEnd, existing);
      Gap(original, start, blockEnd, existing, 0);
      var first := existing[0];
      lines := lines[first := desired];
      NothingDeleted(original, first, desired, blockEnd);
      var k := |existing|;
      while k > 1
        invariant 1 <= k <= |existing|
        invariant Deleted(original, first, desired, NextStop(existing, k, blockEnd), blockEnd, lines)
      {
        k := k - 1;
        var duplicate := existing[k];
        ghost var next := NextStop(existing, k + 1, blockEnd);
        Gap(original, start, blockEnd, existing, k);
        DeletionStep(original, duplicate, next, blockEnd);
        DeleteOne(original, first, desired, duplicate, next, blockEnd, lines);
        lines := lines[..duplicate] + lines[duplicate + 1..];
      }
      ghost var next := NextStop(existing, 1, blockEnd);
      ConditionedFrom(original, start, first, blockEnd, desired);
      DeletionStep(original, first, next, blockEnd);
      AllDeleted(original, start, first, desired, next, blockEnd, lines);
    } else {
      lines := lines[..start] + [desired] + lines[start..];
      NoneFound(original, start, blockEnd, existing, desired);
      assert original[start..] == original[start..blockEnd] + original[blockEnd..];
    }
  }

  lemma FindIs(lines: seq<string>, line: string, index: nat)
    requires index <= |lines| && line !in lines[..index] && (index < |lines| ==> lines[index] == line)
    ensures Find(lines, line) == index
  {
    assert forall i :: 0 <= i < index ==> lines[..index][i] == lines[i];
  }

  lemma {:induction false} BlockLengthIs(lines: seq<string>, n: nat)
    requires n <= |lines| && InBlock(lines[..n]) && (n < |lines| ==> EndsBlock(lines[n]))
    ensures BlockLength(lines) == n
  {
    hide EndsBlock;
    if n > 0 {
      assert lines[..n][0] == lines[0] && lines[..n][1..] == lines[1..][..n - 1];
      BlockLengthIs(lines[1..], n - 1);
    }
  }

  lemma SetIfIs(lines: seq<string>, marker: string, desired: string, index: nat, blockEnd: nat)
    requires index < blockEnd <= |lines| && marker !in lines[..index] && lines[index] == marker
    requires InBlock(lines[index + 1..blockEnd]) && (blockEnd < |lines| ==> EndsBlock(lines[blockEnd]))
    ensures SetIf(lines, marker, desired)
         == lines[..index + 1] + Conditioned(lines[index + 1..blockEnd], desired) + lines[blockEnd..]
  {
    hide EndsBlock, Conditioned, InBlock, BlockLength;
    FindIs(lines, marker, index);
    var after := lines[index + 1..];
    assert after[..blockEnd - index - 1] == lines[index + 1..blockEnd];
    assert after[blockEnd - index - 1..] == lines[blockEnd..];
    BlockLengthIs(after, blockEnd - index - 1);
  }

  method PatchJobIf(text: string, job: string, expression: string) returns (result: string)
    ensures result == SetJobIf(text, job, expression)
  {
    hide EndsBlock, SetIf, Conditioned, SplitLines, Marker, Desired, JoinLines;
    var lines := SplitLines(text);
    var marker := Marker(job);
    for index := 0 to |lines|
      invariant marker !in lines[..index]
    {
      if lines[index] != marker {
        assert lines[..index + 1] == lines[..index] + [lines[index]];
        continue;
      }
      var desired := Desired(expression);
      var blockEnd := |lines|;
      for probe := index + 1 to |lines|
        invariant blockEnd == |lines|
        invariant InBlock(lines[index + 1..probe])
      {
        if EndsBlock(lines[probe]) {
          blockEnd := probe;
          break;
        }
        assert lines[index + 1..probe + 1] == lines[index + 1..probe] + [lines[probe]];
      }
      SetIfIs(lines, marker, desired, index, blockEnd);
      lines := PatchBlock(lines, index + 1, blockEnd, desired);
      return JoinLines(lines);
    }
    return text;
  }
}
