/** The text functions the Go modules share. Go's white space leaves out four control characters that Python's has. */
module GoText {

  /** unicode.IsSpace. */
  predicate IsSpace(c: char) {
    || '\U{09}' <= c <= '\U{0D}' || c == ' ' || c == '\U{85}' || c == '\U{A0}' || c == '\U{1680}'
    || '\U{2000}' <= c <= '\U{200A}' || c == '\U{2028}' || c == '\U{2029}' || c == '\U{202F}' || c == '\U{205F}'
    || c == '\U{3000}'
  }

  /** strings.TrimSpace. */
  function TrimSpace(text: string): string
    decreases |text|
  {
    if text != "" && IsSpace(text[0]) then TrimSpace(text[1..])
    else if text != "" && IsSpace(text[|text| - 1]) then TrimSpace(text[..|text| - 1])
    else text
  }

  /** The code points of white space. */
  predicate Space(c: char) {
    var n := c as int;
    || 9 <= n <= 13 || n == 32 || n == 0x85 || n == 0xA0 || n == 0x1680 || 0x2000 <= n <= 0x200A
    || n == 0x2028 || n == 0x2029 || n == 0x202F || n == 0x205F || n == 0x3000
  }

  predicate Spaces(text: string) {
    forall i :: 0 <= i < |text| ==> Space(text[i])
  }

  /** What is left is the part between the white space around it. */
  lemma {:induction false} TrimSpaceMeaning(left: string, body: string, right: string)
    requires Spaces(left) && Spaces(right) && (body != "" ==> !Space(body[0]) && !Space(body[|body| - 1]))
    ensures TrimSpace(left + body + right) == body
    decreases |left| + |right|
  {
    var text := left + body + right;
    if left != "" {
      assert text[0] == left[0] && text[1..] == left[1..] + body + right;
      TrimSpaceMeaning(left[1..], body, right);
    } else if right != "" {
      if body == "" {
        assert text == right && right[1..] == right[1..] + "" + "";
        TrimSpaceMeaning(right[1..], "", "");
      } else {
        assert text[0] == body[0] && text[|text| - 1] == right[|right| - 1];
        assert text[..|text| - 1] == left + body + right[..|right| - 1];
        TrimSpaceMeaning(left, body, right[..|right| - 1]);
      }
    } else {
      assert text == body;
    }
  }

  /** Nothing is left exactly of white space. */
  lemma {:induction false} TrimBlank(text: string)
    ensures TrimSpace(text) == "" <==> Spaces(text)
    decreases |text|
  {
    if text != "" && IsSpace(text[0]) {
      assert Spaces(text) <==> Spaces(text[1..]) by { assert forall i :: 0 < i < |text| ==> text[i] == text[1..][i - 1]; }
      TrimBlank(text[1..]);
    } else if text != "" && IsSpace(text[|text| - 1]) {
      TrimBlank(text[..|text| - 1]);
      assert text[..|text| - 1][0] == text[0];
    }
  }
}
