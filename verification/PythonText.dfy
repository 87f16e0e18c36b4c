/** The str methods the Python modules rely on. */
module PythonText {
  /** The line boundaries of str.splitlines. */
  predicate IsBreak(c: char) {
    || '\U{0A}' <= c <= '\U{0D}' || '\U{1C}' <= c <= '\U{1E}'
    || c == '\U{85}' || c == '\U{2028}' || c == '\U{2029}'
  }

  /** The characters str.strip removes. */
  predicate IsSpace(c: char) {
    || '\U{09}' <= c <= '\U{0D}' || '\U{1C}' <= c <= '\U{20}' || c == '\U{85}' || c == '\U{A0}' || c == '\U{1680}'
    || '\U{2000}' <= c <= '\U{200A}' || c == '\U{2028}' || c == '\U{2029}' || c == '\U{202F}' || c == '\U{205F}'
    || c == '\U{3000}'
  }

  function FirstBreak(text: string): (i: nat)
    ensures i <= |text| && (i < |text| ==> IsBreak(text[i])) && (forall j :: 0 <= j < i ==> !IsBreak(text[j]))
  {
    if text == "" || IsBreak(text[0]) then 0 else 1 + FirstBreak(text[1..])
  }

  function SplitLines(text: string): seq<string> {
    if text == "" then []
    else
      var i := FirstBreak(text);
      if i == |text| then [text]
      else
        var next := if text[i] == '\r' && i + 1 < |text| && text[i + 1] == '\n' then i + 2 else i + 1;
        [text[..i]] + SplitLines(text[next..])
  }

  /** "\n".join(lines) + "\n" of a non-empty list. */
  function JoinLines(lines: seq<string>): string
    requires lines != []
  {
    if |lines| == 1 then lines[0] + "\n" else lines[0] + "\n" + JoinLines(lines[1..])
  }

  function StripRight(line: string): string {
    if line != "" && IsSpace(line[|line| - 1]) then StripRight(line[..|line| - 1]) else line
  }

  function StripLeft(line: string): string {
    if line != "" && IsSpace(line[0]) then StripLeft(line[1..]) else line
  }

  function Strip(line: string): string {
    StripLeft(StripRight(line))
  }

  predicate StartsWith(line: string, prefix: string) {
    prefix <= line
  }

  predicate EndsWith(line: string, suffix: char) {
    line != "" && line[|line| - 1] == suffix
  }

  /** str.split of a single character. */
  function Split(text: string, c: char): (parts: seq<string>)
    ensures parts != []
  {
    if text == "" then [""]
    else
      var rest := Split(text[1..], c);
      if text[0] == c then [""] + rest else [[text[0]] + rest[0]] + rest[1..]
  }

  lemma {:induction false} SplitWhole(text: string, c: char)
    requires c !in text
    ensures Split(text, c) == [text]
  {
    if text != "" {
      assert text[0] in text;
      SplitWhole(text[1..], c);
      assert text == [text[0]] + text[1..];
    }
  }

  lemma {:induction false} SplitParts(text: string, c: char)
    ensures forall part, d :: part in Split(text, c) && d in part ==> d in text && d != c
  {
    if text != "" {
      SplitParts(text[1..], c);
      var rest := Split(text[1..], c);
      assert rest[0] in rest;
    }
  }

  lemma {:induction false} StripParts(text: string)
    ensures forall d :: d in Strip(text) ==> d in text
  {
    StripRightParts(text);
    StripLeftParts(StripRight(text));
  }

  lemma {:induction false} StripRightParts(text: string)
    ensures forall d :: d in StripRight(text) ==> d in text
  {
    hide IsSpace;
    if text != "" && IsSpace(text[|text| - 1]) { StripRightParts(text[..|text| - 1]); }
  }

  lemma {:induction false} StripLeftParts(text: string)
    ensures forall d :: d in StripLeft(text) ==> d in text
  {
    hide IsSpace;
    if text != "" && IsSpace(text[0]) { StripLeftParts(text[1..]); }
  }

  lemma {:induction false} StripRightDone(text: string)
    ensures StripRight(text) != "" ==> !IsSpace(StripRight(text)[|StripRight(text)| - 1])
  {
    hide IsSpace;
    if text != "" && IsSpace(text[|text| - 1]) { StripRightDone(text[..|text| - 1]); }
  }

  lemma {:induction false} StripLeftDone(text: string)
    requires text != "" ==> !IsSpace(text[|text| - 1])
    ensures var stripped := StripLeft(text);
      stripped != "" ==> !IsSpace(stripped[0]) && !IsSpace(stripped[|stripped| - 1])
  {
    hide IsSpace;
    if text != "" && IsSpace(text[0]) { StripLeftDone(text[1..]); }
  }

  /** Stripping a stripped text changes nothing. */
  lemma StripTwice(text: string)
    ensures Strip(Strip(text)) == Strip(text)
  {
    hide IsSpace;
    StripRightDone(text);
    StripLeftDone(StripRight(text));
  }

  // ---------------------------------------------------------------- by position

  /** The code points of white space. */
  predicate Blank(c: char) {
    var n := c as int;
    || 9 <= n <= 13 || 28 <= n <= 32 || n == 0x85 || n == 0xA0 || n == 0x1680 || 0x2000 <= n <= 0x200A
    || n == 0x2028 || n == 0x2029 || n == 0x202F || n == 0x205F || n == 0x3000
  }

  predicate Blanks(text: string) {
    forall i :: 0 <= i < |text| ==> Blank(text[i])
  }

  lemma {:induction false} StripRightOf(text: string, right: string)
    requires Blanks(right) && (text != "" ==> !Blank(text[|text| - 1]))
    ensures StripRight(text + right) == text
  {
    if right != "" {
      assert (text + right)[..|text + right| - 1] == text + right[..|right| - 1];
      StripRightOf(text, right[..|right| - 1]);
    } else {
      assert text + right == text;
    }
  }

  lemma {:induction false} StripLeftOf(left: string, text: string)
    requires Blanks(left) && (text != "" ==> !Blank(text[0]))
    ensures StripLeft(left + text) == text
  {
    if left != "" {
      assert (left + text)[1..] == left[1..] + text;
      StripLeftOf(left[1..], text);
    } else {
      assert left + text == text;
    }
  }

  /** What is left is the part between the white space around it. */
  lemma StripMeaning(left: string, body: string, right: string)
    requires Blanks(left) && Blanks(right) && (body != "" ==> !Blank(body[0]) && !Blank(body[|body| - 1]))
    ensures Strip(left + body + right) == body
  {
    hide StripLeft, StripRight, Blank;
    if body == "" {
      assert left + body + right == "" + (left + right) && "" + body == "";
      StripRightOf("", left + right);
      StripLeftOf("", "");
    } else {
      StripRightOf(left + body, right);
      StripLeftOf(left, body);
    }
  }

  /** From `a` to `b` there is no separator, and there is one, or nothing, on both sides. */
  predicate PieceAt(text: string, c: char, a: nat, b: nat) {
    && a <= b <= |text| && (a == 0 || text[a - 1] == c) && (b == |text| || text[b] == c)
    && forall j :: a <= j < b ==> text[j] != c
  }

  ghost predicate LaterPiece(text: string, c: char, part: string) {
    exists a: nat, b: nat :: 0 < a <= b <= |text| && PieceAt(text, c, a, b) && part == text[a..b]
  }

  lemma PieceShifts(text: string, c: char, a: nat, b: nat)
    requires text != "" && a <= b && (a > 0 || text[0] == c)
    ensures PieceAt(text[1..], c, a, b) <==> PieceAt(text, c, a + 1, b + 1)
    ensures PieceAt(text[1..], c, a, b) ==> text[1..][a..b] == text[a + 1..b + 1]
  {
    if PieceAt(text, c, a + 1, b + 1) {
      assert forall j :: a <= j < b ==> text[1..][j] == text[j + 1];
    }
  }

  /** The parts a text splits into are its pieces; the one in front is the first. */
  lemma {:induction false} SplitPieces(text: string, c: char)
    ensures PieceAt(text, c, 0, |Split(text, c)[0]|) && Split(text, c)[0] == text[..|Split(text, c)[0]|]
    ensures forall part :: part in Split(text, c)[1..] <==> LaterPiece(text, c, part)
  {
    if text != "" {
      var rest, parts := Split(text[1..], c), Split(text, c);
      SplitPieces(text[1..], c);
      forall part ensures part in parts[1..] <==> LaterPiece(text, c, part) {
        LaterShifts(text, c, rest[0], part);
        if text[0] == c {
          assert parts[1..] == rest;
          assert part in rest <==> part == rest[0] || part in rest[1..];
        } else {
          assert parts[1..] == rest[1..];
        }
      }
    }
  }

  lemma PieceBounds(text: string, c: char, a: nat, b: nat)
    requires PieceAt(text, c, a, b)
    ensures a <= b <= |text| && (a > 0 ==> text[a - 1] == c)
  {
  }

  lemma FirstPiece(text: string, c: char, b: nat, k: nat)
    requires PieceAt(text, c, 0, b) && PieceAt(text, c, 0, k)
    ensures b == k
  {
  }

  /** The later pieces are the later ones of the rest, and its first one if a separator stands in front. */
  lemma LaterShifts(text: string, c: char, first: string, part: string)
    requires text != "" && PieceAt(text[1..], c, 0, |first|) && first == text[1..][..|first|]
    ensures LaterPiece(text, c, part) <==> LaterPiece(text[1..], c, part) || (text[0] == c && part == first)
  {
    hide PieceAt;
    if a: nat, b: nat :| 0 < a <= b <= |text| && PieceAt(text, c, a, b) && part == text[a..b] {
      PieceBounds(text, c, a, b);
      PieceShifts(text, c, a - 1, b - 1);
      if a == 1 { FirstPiece(text[1..], c, |first|, b - 1); }
    }
    if a: nat, b: nat :| 0 < a <= b < |text| && PieceAt(text[1..], c, a, b) && part == text[1..][a..b] {
      PieceBounds(text[1..], c, a, b);
      PieceShifts(text, c, a, b);
      assert part == text[a + 1..b + 1];
    }
    if text[0] == c && part == first {
      PieceBounds(text[1..], c, 0, |first|);
      PieceShifts(text, c, 0, |first|);
      assert part == text[1..|first| + 1];
    }
  }

  ghost predicate Piece(text: string, c: char, part: string) {
    exists a: nat, b: nat :: a <= b <= |text| && PieceAt(text, c, a, b) && part == text[a..b]
  }

  lemma PartsArePieces(text: string, c: char, part: string)
    ensures part in Split(text, c) <==> Piece(text, c, part)
  {
    SplitPieces(text, c);
    var parts := Split(text, c);
    assert part in parts <==> part == parts[0] || part in parts[1..];
    hide Split, PieceAt;
    if a: nat, b: nat :| a <= b <= |text| && PieceAt(text, c, a, b) && part == text[a..b] {
      if a == 0 { FirstPiece(text, c, |parts[0]|, b); }
    }
    assert part == parts[0] ==> part == text[0..|parts[0]|];
  }
}
