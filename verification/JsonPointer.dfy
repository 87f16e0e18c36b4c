/** The paths the differ prints, read back as JSON Pointers (RFC 6901). */
module JsonPointer {
  import opened Numbers
  import opened Wrappers
  import opened JsonDiff

  // ---------------------------------------------------------------- parsing and evaluation, sections 3 and 4 of RFC 6901

  /** Replaces "~`code`" by `replacement`, left to right. */
  function ReplacePair(text: string, code: char, replacement: char): string {
    if text == "" then ""
    else if |text| >= 2 && text[0] == '~' && text[1] == code then [replacement] + ReplacePair(text[2..], code, replacement)
    else [text[0]] + ReplacePair(text[1..], code, replacement)
  }

  /** Section 4: first "~1" becomes "/", then "~0" becomes "~". */
  function Unescape(token: string): string {
    ReplacePair(ReplacePair(token, '1', '/'), '0', '~')
  }

  /** Section 3: each token is what follows a "/". */
  function RawTokens(text: string): (tokens: seq<string>)
    requires text == "" || text[0] == '/'
    ensures text == "" <==> tokens == []
  {
    if text == "" then []
    else
      var before, c := text[..|text| - 1], text[|text| - 1];
      var tokens := RawTokens(before);
      if c == '/' then tokens + [""] else tokens[..|tokens| - 1] + [tokens[|tokens| - 1] + [c]]
  }

  function UnescapeAll(tokens: seq<string>): seq<string> {
    if tokens == [] then [] else UnescapeAll(tokens[..|tokens| - 1]) + [Unescape(tokens[|tokens| - 1])]
  }

  function ParsePointer(text: string): Option<seq<string>> {
    if text != "" && text[0] != '/' then None else Some(UnescapeAll(RawTokens(text)))
  }

  /** Section 4: digits without a leading zero, or "0". */
  function ParseIndex(token: string): Option<nat> {
    if token != "" && AllDigits(token) && (token[0] != '0' || |token| == 1) then Some(DigitsValue(token)) else None
  }

  function Resolve(value: Json, tokens: seq<string>): Option<Json> {
    if tokens == [] then Some(value)
    else
      match value
      case Obj(fields) => if tokens[0] in fields then Resolve(fields[tokens[0]], tokens[1..]) else None
      case Arr(items) =>
        var index := ParseIndex(tokens[0]);
        if index.Some? && index.value < |items| then Resolve(items[index.value], tokens[1..]) else None
      case _ => None
  }

  function ResolvePointer(value: Json, pointer: string): Option<Json> {
    match ParsePointer(pointer)
    case Some(tokens) => Resolve(value, tokens)
    case None => None
  }

  // ---------------------------------------------------------------- printing and parsing

  /** The path the recursion has built after descending through these tokens. */
  function Render(tokens: seq<string>): string {
    if tokens == [] then "" else Render(tokens[..|tokens| - 1]) + "/" + EscapePointer(tokens[|tokens| - 1])
  }

  lemma RenderMore(tokens: seq<string>, token: string)
    ensures Render(tokens + [token]) == Render(tokens) + "/" + EscapePointer(token)
  {
    hide EscapePointer;
    assert (tokens + [token])[..|tokens|] == tokens;
  }

  /** What one character becomes under both replacements. */
  function EscapeChar(c: char): string {
    if c == '~' then "~0" else if c == '/' then "~1" else [c]
  }

  lemma ReplaceCharMore(a: string, b: string, c: char, replacement: string)
    ensures ReplaceChar(a + b, c, replacement) == ReplaceChar(a, c, replacement) + ReplaceChar(b, c, replacement)
  {
    if a == "" {
      assert a + b == b;
    } else {
      assert (a + b)[1..] == a[1..] + b;
      ReplaceCharMore(a[1..], b, c, replacement);
    }
  }

  lemma EscapeHead(token: string)
    requires token != ""
    ensures EscapePointer(token) == EscapeChar(token[0]) + EscapePointer(token[1..])
  {
    var head := if token[0] == '~' then "~0" else [token[0]];
    ReplaceCharMore(head, ReplaceChar(token[1..], '~', "~0"), '/', "~1");
    assert "~0"[1..] == "0" && "0"[1..] == "";
    assert ReplaceChar(head, '/', "~1") == EscapeChar(token[0]) by {
      if token[0] == '~' {
        assert ReplaceChar("0", '/', "~1") == "0";
        assert ReplaceChar("~0", '/', "~1") == "~0";
      }
    }
  }

  /** What the replacement does to a pair, to another escape, and to any other character. */
  lemma PairStep(c: char, rest: string, code: char, out: char)
    requires code != '~' && c != code && c != '~'
    ensures ReplacePair(['~', code] + rest, code, out) == [out] + ReplacePair(rest, code, out)
    ensures ReplacePair(['~', c] + rest, code, out) == ['~', c] + ReplacePair(rest, code, out)
    ensures ReplacePair([c] + rest, code, out) == [c] + ReplacePair(rest, code, out)
  {
    assert (['~', code] + rest)[2..] == rest;
    assert ([c] + rest)[1..] == rest;
    assert (['~', c] + rest)[1..] == [c] + rest;
    assert ['~', c] + ReplacePair(rest, code, out) == ['~'] + ([c] + ReplacePair(rest, code, out));
  }

  lemma {:induction false} FirstPass(token: string)
    ensures ReplacePair(EscapePointer(token), '1', '/') == ReplaceChar(token, '~', "~0")
  {
    hide ReplacePair, EscapePointer;
    if token == "" {
      NothingToReplace();
    } else {
      var rest := EscapePointer(token[1..]);
      EscapeHead(token);
      FirstPass(token[1..]);
      PairStep(if token[0] == '~' || token[0] == '/' || token[0] == '1' then '0' else token[0], rest, '1', '/');
      if token[0] != '~' { PlainStep(token[0], rest, '1', '/'); }
    }
  }

  lemma NothingToReplace()
    ensures EscapePointer("") == "" && forall code, out :: ReplacePair("", code, out) == ""
  {
  }

  lemma PlainStep(c: char, rest: string, code: char, out: char)
    requires c != '~'
    ensures ReplacePair([c] + rest, code, out) == [c] + ReplacePair(rest, code, out)
  {
    assert ([c] + rest)[1..] == rest;
  }

  lemma {:induction false} SecondPass(token: string)
    ensures ReplacePair(ReplaceChar(token, '~', "~0"), '0', '~') == token
  {
    hide ReplacePair;
    if token == "" {
      NothingToReplace();
    } else {
      var rest := ReplaceChar(token[1..], '~', "~0");
      SecondPass(token[1..]);
      PairStep('1', rest, '0', '~');
      if token[0] != '~' { PlainStep(token[0], rest, '0', '~'); }
      assert token == [token[0]] + token[1..];
    }
  }

  /** Undoing the escapes in the order the standard gives returns the key. */
  lemma UnescapeEscape(token: string)
    ensures Unescape(EscapePointer(token)) == token
  {
    FirstPass(token);
    SecondPass(token);
  }

  lemma {:induction false} EscapedHasNoSlash(token: string)
    ensures '/' !in EscapePointer(token)
  {
    if token != "" {
      EscapeHead(token);
      EscapedHasNoSlash(token[1..]);
    }
  }

  lemma RawTokensPush(text: string, c: char)
    requires (text + [c])[0] == '/'
    ensures text == "" || text[0] == '/'
    ensures var tokens := RawTokens(text);
      RawTokens(text + [c])
      == if c == '/' then tokens + [""] else tokens[..|tokens| - 1] + [tokens[|tokens| - 1] + [c]]
  {
    assert (text + [c])[..|text|] == text;
  }

  lemma {:induction false} RawTokensMore(text: string, raw: string)
    requires text == "" || text[0] == '/'
    requires '/' !in raw
    ensures RawTokens(text + "/" + raw) == RawTokens(text) + [raw]
  {
    hide RawTokens;
    if raw == "" {
      RawTokensPush(text, '/');
      assert text + "/" + raw == text + ['/'];
    } else {
      var front, c := raw[..|raw| - 1], raw[|raw| - 1];
      assert raw == front + [c];
      RawTokensMore(text, front);
      assert text + "/" + raw == text + "/" + front + [c];
      RawTokensPush(text + "/" + front, c);
      var tokens := RawTokens(text) + [front];
      assert tokens[..|tokens| - 1] == RawTokens(text);
    }
  }

  lemma RenderShape(tokens: seq<string>)
    ensures Render(tokens) == "" <==> tokens == []
    ensures tokens != [] ==> Render(tokens)[0] == '/'
  {
    hide EscapePointer;
    if tokens != [] { RenderShape(tokens[..|tokens| - 1]); }
  }

  lemma UnescapeMore(raw: seq<string>, token: string)
    ensures UnescapeAll(raw + [EscapePointer(token)]) == UnescapeAll(raw) + [token]
  {
    hide EscapePointer, Unescape;
    UnescapeEscape(token);
    assert (raw + [EscapePointer(token)])[..|raw|] == raw;
  }

  lemma {:induction false} ParseRenderParts(tokens: seq<string>)
    ensures Render(tokens) == "" <==> tokens == []
    ensures tokens != [] ==> Render(tokens)[0] == '/'
    ensures UnescapeAll(RawTokens(Render(tokens))) == tokens
  {
    hide EscapePointer, Unescape, RawTokens;
    RenderShape(tokens);
    if tokens == [] {
      NoTokens();
    } else {
      var n := |tokens| - 1;
      ParseRenderParts(tokens[..n]);
      EscapedHasNoSlash(tokens[n]);
      RawTokensMore(Render(tokens[..n]), EscapePointer(tokens[n]));
      UnescapeMore(RawTokens(Render(tokens[..n])), tokens[n]);
      assert tokens == tokens[..n] + [tokens[n]];
    }
  }

  lemma NoTokens()
    ensures UnescapeAll(RawTokens("")) == []
  {
  }

  /** A path the differ prints is a JSON Pointer that parses back to exactly the keys and indices it went through. */
  lemma ParseRender(tokens: seq<string>)
    ensures ParsePointer(Render(tokens)) == Some(tokens)
  {
    hide EscapePointer, Unescape;
    ParseRenderParts(tokens);
  }

  lemma RenderInjective(a: seq<string>, b: seq<string>)
    ensures Render(a) == Render(b) ==> a == b
    ensures Render(a) == "/" <==> a == [""]
  {
    assert EscapePointer("") == "" && Render([]) == "";
    hide Render, Unescape, EscapePointer;
    ParseRender(a);
    ParseRender(b);
    RenderMore([], "");
    assert [] + [""] == [""];
    ParseRender([""]);
  }

  /** A printed index needs no escape. */
  lemma IndexStays(n: nat)
    ensures EscapePointer(Decimal(n)) == Decimal(n)
  {
    DecimalDigits(n);
    DigitsStay(Decimal(n));
  }

  lemma {:induction false} DigitsStay(text: string)
    requires AllDigits(text)
    ensures EscapePointer(text) == text
  {
    if text != "" {
      EscapeHead(text);
      assert IsDigit(text[0]);
      assert forall i :: 0 <= i < |text[1..]| ==> text[1..][i] == text[i + 1];
      DigitsStay(text[1..]);
      assert text == [text[0]] + text[1..];
    }
  }

  /** Index tokens and indices correspond one to one. */
  lemma IndexTokens(token: string, n: nat)
    ensures ParseIndex(token) == Some(n) <==> token == Decimal(n)
  {
    DecimalDigits(n);
    if ParseIndex(token) == Some(n) { DigitsDecimal(token); }
  }
}
