/** Words quoted for a remote shell (internal/httpserver/linux_handlers.go:435-455, 486-500, 661), read back by the
    token recognition of the POSIX Shell Command Language (sections 2.2.1 to 2.2.3 and 2.3). */
module ShellQuote {
  import opened Numbers
  import P = PythonText
  import opened Wrappers

  // ---------------------------------------------------------------- the shell's reading

  datatype Token = Word(text: string) | Semicolon

  datatype Mode = Unquoted | Single | Double

  /** Characters without any meaning of their own outside quotes. */
  predicate IsPlain(c: char) {
    || 'a' <= c <= 'z' || 'A' <= c <= 'Z' || '0' <= c <= '9'
    || c == '_' || c == '-' || c == '.' || c == '/' || c == ',' || c == ':' || c == '=' || c == '+' || c == '@' || c == '%'
  }

  function Finished(current: Option<string>, read: seq<Token>): seq<Token> {
    match current
    case Some(word) => read + [Word(word)]
    case None => read
  }

  function Append(current: Option<string>, c: char): Option<string> {
    match current
    case Some(word) => Some(word + [c])
    case None => Some([c])
  }

  /**
   * Token recognition with quote removal. A NUL cannot stand in a command, and a text that uses expansion, an
   * operator other than ";", a comment or an unfinished quote is not read at all.
   */
  function Scan(text: string, mode: Mode, current: Option<string>, read: seq<Token>): Option<seq<Token>>
    decreases |text|
  {
    if text == "" then if mode.Unquoted? then Some(Finished(current, read)) else None
    else
      var c, rest := text[0], text[1..];
      if c == '\0' then None
      else
        match mode
        case Single => if c == '\'' then Scan(rest, Unquoted, current, read) else Scan(rest, Single, Append(current, c), read)
        case Double =>
          if c == '"' then Scan(rest, Unquoted, current, read)
          else if c == '$' || c == '`' then None
          else if c == '\\' && rest != "" && rest[0] in {'$', '`', '"', '\\'} then
            Scan(rest[1..], Double, Append(current, rest[0]), read)
          else if c == '\\' && rest != "" && rest[0] == '\n' then Scan(rest[1..], Double, current, read)
          else Scan(rest, Double, Append(current, c), read)
        case Unquoted =>
          if c == ' ' || c == '\t' then Scan(rest, Unquoted, None, Finished(current, read))
          else if c == ';' then Scan(rest, Unquoted, None, Finished(current, read) + [Semicolon])
          else if c == '\'' then Scan(rest, Single, Started(current), read)
          else if c == '"' then Scan(rest, Double, Started(current), read)
          else if c == '\\' && rest != "" && rest[0] == '\n' then Scan(rest[1..], Unquoted, current, read)
          else if c == '\\' && rest != "" && rest[0] != '\0' then Scan(rest[1..], Unquoted, Append(current, rest[0]), read)
          else if IsPlain(c) then Scan(rest, Unquoted, Append(current, c), read)
          else None
  }

  /** An opening quote starts a word even if nothing follows in it. */
  function Started(current: Option<string>): Option<string> {
    match current
    case Some(_) => current
    case None => Some("")
  }

  function Lex(text: string): Option<seq<Token>> {
    Scan(text, Unquoted, None, [])
  }

  function Words(words: seq<string>): seq<Token> {
    seq(|words|, i requires 0 <= i < |words| => Word(words[i]))
  }

  // ---------------------------------------------------------------- the quoting

  /** Every single quote becomes five characters: out of the quotes, a double-quoted single quote, back in. */
  function Escaped(v: string): string {
    if v == "" then "" else (if v[0] == '\'' then "'\"'\"'" else [v[0]]) + Escaped(v[1..])
  }

  function Quote(v: string): string {
    "'" + Escaped(v) + "'"
  }

  predicate HasNul(v: string) {
    '\0' in v
  }

  /** `text` is read as one word, whatever follows it. */
  ghost predicate ReadsAs(text: string, word: string) {
    forall rest, read :: Scan(text + rest, Unquoted, None, read) == Scan(rest, Unquoted, Some(word), read)
  }

  lemma StepSingle(rest: string, c: char, word: string, read: seq<Token>)
    requires c != '\'' && c != '\0'
    ensures Scan([c] + rest, Single, Some(word), read) == Scan(rest, Single, Some(word + [c]), read)
  {
    assert ([c] + rest)[1..] == rest;
  }

  lemma StepClose(rest: string, word: string, read: seq<Token>)
    ensures Scan("'" + rest, Single, Some(word), read) == Scan(rest, Unquoted, Some(word), read)
  {
    assert ("'" + rest)[1..] == rest;
  }

  lemma StepOpen(rest: string, current: Option<string>, read: seq<Token>)
    ensures Scan("'" + rest, Unquoted, current, read) == Scan(rest, Single, Started(current), read)
  {
    assert ("'" + rest)[1..] == rest;
  }

  /** A single quote between double quotes. */
  lemma StepQuoted(rest: string, word: string, read: seq<Token>)
    ensures Scan("\"'\"" + rest, Unquoted, Some(word), read) == Scan(rest, Unquoted, Some(word + ['\'']), read)
  {
    var one, two := "'\"" + rest, "\"" + rest;
    assert ("\"'\"" + rest)[1..] == one && one[1..] == two && two[1..] == rest;
    assert Scan(one, Double, Some(word), read) == Scan(two, Double, Some(word + ['\'']), read);
  }

  lemma {:induction false} ScanEscaped(v: string, rest: string, word: string, read: seq<Token>)
    requires !HasNul(v)
    ensures Scan(Escaped(v) + "'" + rest, Single, Some(word), read) == Scan(rest, Unquoted, Some(word + v), read)
  {
    hide Scan;
    if v == "" {
      assert Escaped(v) + "'" + rest == "'" + rest;
      StepClose(rest, word, read);
      assert word + v == word;
    } else {
      var tail := Escaped(v[1..]) + "'" + rest;
      assert v[0] in v;
      ScanEscaped(v[1..], rest, word + [v[0]], read);
      assert word + [v[0]] + v[1..] == word + v;
      if v[0] == '\'' {
        assert Escaped(v) + "'" + rest == "'" + ("\"'\"" + ("'" + tail));
        StepClose("\"'\"" + ("'" + tail), word, read);
        StepQuoted("'" + tail, word, read);
        StepOpen(tail, Some(word + ['\'']), read);
      } else {
        assert Escaped(v) + "'" + rest == [v[0]] + tail;
        StepSingle(tail, v[0], word, read);
      }
    }
  }

  lemma ScanQuote(v: string, rest: string, current: Option<string>, read: seq<Token>)
    requires !HasNul(v)
    ensures Scan(Quote(v) + rest, Unquoted, current, read) == Scan(rest, Unquoted, Some(Started(current).value + v), read)
  {
    hide Scan;
    assert Quote(v) + rest == "'" + (Escaped(v) + "'" + rest);
    StepOpen(Escaped(v) + "'" + rest, current, read);
    ScanEscaped(v, rest, Started(current).value, read);
  }

  /** A quoted word is read as exactly the word. */
  lemma QuoteReads(v: string)
    requires !HasNul(v)
    ensures ReadsAs(Quote(v), v)
  {
    hide Scan, Quote;
    forall rest, read
      ensures Scan(Quote(v) + rest, Unquoted, None, read) == Scan(rest, Unquoted, Some(v), read)
    {
      ScanQuote(v, rest, None, read);
      assert "" + v == v;
    }
  }

  predicate AllPlain(text: string) {
    forall i :: 0 <= i < |text| ==> IsPlain(text[i])
  }

  lemma {:induction false} ScanPlain(text: string, rest: string, word: string, read: seq<Token>)
    requires AllPlain(text)
    ensures Scan(text + rest, Unquoted, Some(word), read) == Scan(rest, Unquoted, Some(word + text), read)
  {
    if text == "" {
      assert text + rest == rest && word + text == word;
    } else {
      assert IsPlain(text[0]);
      assert (text + rest)[1..] == text[1..] + rest && word + [text[0]] + text[1..] == word + text;
      ScanPlain(text[1..], rest, word + [text[0]], read);
    }
  }

  /** Plain characters followed by a quoted value make one word. */
  lemma PlainReads(name: string, v: string)
    requires name != "" && AllPlain(name)
    ensures ReadsAs(name, name)
    ensures !HasNul(v) ==> ReadsAs(name + Quote(v), name + v)
  {
    hide Quote;
    forall rest, read ensures Scan(name + rest, Unquoted, None, read) == Scan(rest, Unquoted, Some(name), read) {
      assert IsPlain(name[0]) && (name + rest)[0] == name[0] && (name + rest)[1..] == name[1..] + rest;
      ScanPlain(name[1..], rest, [name[0]], read);
      assert [name[0]] + name[1..] == name;
    }
    if !HasNul(v) {
      forall rest, read
        ensures Scan(name + Quote(v) + rest, Unquoted, None, read) == Scan(rest, Unquoted, Some(name + v), read)
      {
        hide Scan;
        assert name + Quote(v) + rest == name + (Quote(v) + rest);
        ScanQuote(v, rest, Some(name), read);
      }
    }
  }

  // ---------------------------------------------------------------- lists of words

  function JoinSpaces(texts: seq<string>): string {
    if texts == [] then "" else if |texts| == 1 then texts[0] else texts[0] + " " + JoinSpaces(texts[1..])
  }

  ghost predicate AllRead(texts: seq<string>, words: seq<string>) {
    |texts| == |words| && forall i :: 0 <= i < |texts| ==> ReadsAs(texts[i], words[i])
  }

  lemma ReadsHere(text: string, word: string, rest: string, read: seq<Token>)
    requires ReadsAs(text, word)
    ensures Scan(text + rest, Unquoted, None, read) == Scan(rest, Unquoted, Some(word), read)
  {
  }

  /** Texts that are read as words, with spaces between them, are read as those words. */
  lemma {:induction false} ScanWords(texts: seq<string>, words: seq<string>, rest: string, read: seq<Token>)
    requires AllRead(texts, words) && texts != []
    ensures Scan(JoinSpaces(texts) + rest, Unquoted, None, read)
         == Scan(rest, Unquoted, Some(words[|words| - 1]), read + Words(words[..|words| - 1]))
  {
    hide Scan;
    assert ReadsAs(texts[0], words[0]);
    if |texts| == 1 {
      ReadsHere(texts[0], words[0], rest, read);
      assert read + Words(words[..0]) == read;
    } else {
      var tail := JoinSpaces(texts[1..]) + rest;
      assert JoinSpaces(texts) + rest == texts[0] + (" " + tail);
      ReadsHere(texts[0], words[0], " " + tail, read);
      hide ReadsAs;
      ScanSpace(tail, words[0], read);
      assert forall i :: 0 <= i < |texts[1..]| ==> texts[1..][i] == texts[i + 1] && words[1..][i] == words[i + 1];
      ScanWords(texts[1..], words[1..], rest, read + [Word(words[0])]);
      assert read + [Word(words[0])] + Words(words[1..][..|words| - 2]) == read + Words(words[..|words| - 1]);
    }
  }

  lemma ScanSpace(rest: string, word: string, read: seq<Token>)
    ensures Scan(" " + rest, Unquoted, Some(word), read) == Scan(rest, Unquoted, None, read + [Word(word)])
    ensures Scan("; " + rest, Unquoted, Some(word), read) == Scan(rest, Unquoted, None, read + [Word(word), Semicolon])
  {
    assert (" " + rest)[1..] == rest;
    assert ("; " + rest)[1..] == " " + rest;
    assert read + [Word(word)] + [Semicolon] == read + [Word(word), Semicolon];
  }

  lemma LexWords(texts: seq<string>, words: seq<string>)
    requires AllRead(texts, words)
    ensures Lex(JoinSpaces(texts)) == Some(Words(words))
  {
    if texts != [] {
      ScanWords(texts, words, "", []);
      assert JoinSpaces(texts) + "" == JoinSpaces(texts);
      assert words == words[..|words| - 1] + [words[|words| - 1]];
      assert [] + Words(words[..|words| - 1]) + [Word(words[|words| - 1])] == Words(words);
    } else {
      assert Words(words) == [];
    }
  }

  function Quoted(words: seq<string>): seq<string> {
    seq(|words|, i requires 0 <= i < |words| => Quote(words[i]))
  }

  lemma {:induction false} NulIsRefused(text: string, mode: Mode, current: Option<string>, read: seq<Token>)
    requires HasNul(text)
    ensures Scan(text, mode, current, read) == None
    decreases |text|
  {
    var rest := text[1..];
    if text[0] != '\0' {
      assert HasNul(rest);
      forall m, c, r ensures Scan(rest, m, c, r) == None { NulIsRefused(rest, m, c, r); }
      if rest[0] != '\0' {
        assert HasNul(rest[1..]);
        forall m, c, r ensures Scan(rest[1..], m, c, r) == None { NulIsRefused(rest[1..], m, c, r); }
      }
    }
  }

  lemma {:induction false} NulIsKept(words: seq<string>, i: nat)
    requires i < |words| && HasNul(words[i])
    ensures HasNul(JoinSpaces(Quoted(words)))
  {
    if i == 0 {
      EscapedKeepsNul(words[0]);
      assert Quoted(words)[0] == Quote(words[0]);
    } else {
      NulIsKept(words[1..], i - 1);
      assert Quoted(words)[1..] == Quoted(words[1..]);
    }
  }

  lemma {:induction false} EscapedKeepsNul(v: string)
    requires HasNul(v)
    ensures HasNul(Escaped(v))
  {
    if v[0] != '\0' { EscapedKeepsNul(v[1..]); }
  }

  /** Quoting and reading are inverse, for exactly the lists of words without a NUL. */
  lemma QuotingRoundTrip(words: seq<string>)
    ensures Lex(JoinSpaces(Quoted(words))) == Some(Words(words)) <==> forall i :: 0 <= i < |words| ==> !HasNul(words[i])
  {
    hide Quote, ReadsAs;
    if i :| 0 <= i < |words| && HasNul(words[i]) {
      NulIsKept(words, i);
      NulIsRefused(JoinSpaces(Quoted(words)), Unquoted, None, []);
    } else {
      forall i | 0 <= i < |words| ensures ReadsAs(Quoted(words)[i], words[i]) { QuoteReads(words[i]); }
      LexWords(Quoted(words), words);
    }
  }

  // ---------------------------------------------------------------- the install environment

  /** strconv.Itoa. */
  function Itoa(n: int): string {
    if n < 0 then "-" + Decimal(-n) else Decimal(n)
  }

  lemma ItoaIsPlain(n: int)
    ensures Itoa(n) != "" && AllPlain(Itoa(n))
  {
    hide Decimal;
    var digits := Decimal(if n < 0 then -n else n);
    DecimalDigits(if n < 0 then -n else n);
    forall i | 0 <= i < |digits| ensures IsPlain(digits[i]) { assert IsDigit(digits[i]); }
  }

  /** A number is written in decimal without leading zeros, with a minus sign if it is negative. */
  lemma ItoaMeaning(n: int)
    ensures
      var digits := if n < 0 then Itoa(n)[1..] else Itoa(n);
      && (n < 0 ==> Itoa(n)[0] == '-')
      && AllDigits(digits) && DigitsValue(digits) == (if n < 0 then -n else n) && (digits[0] == '0' ==> digits == "0")
  {
    hide Decimal;
    DecimalDigits(if n < 0 then -n else n);
    assert n < 0 ==> Itoa(n)[1..] == Decimal(-n);
  }

  datatype Ipsec = NoIpsec | RandomPsk | Psk(psk: string)

  /** The settings of an installation; `probeTarget` and `scanRange` as strings.TrimSpace leaves them. */
  datatype Settings = Settings(
    port: int, mtu: int, mru: int, localIp: string, clientPool: string, cidr: string, parallel: int,
    probeTarget: string, scanRange: string, candidates: seq<string>, ipsec: Ipsec)

  /** strings.Join(candidates, ","). */
  function JoinCommas(texts: seq<string>): string {
    if texts == [] then "" else if |texts| == 1 then texts[0] else texts[0] + "," + JoinCommas(texts[1..])
  }

  /** The commas stand between the texts, in order: splitting at them gives the texts back. */
  lemma {:induction false} CommasSplit(texts: seq<string>)
    requires texts != [] && forall i :: 0 <= i < |texts| ==> ',' !in texts[i]
    ensures P.Split(JoinCommas(texts), ',') == texts
  {
    if |texts| == 1 {
      P.SplitWhole(texts[0], ',');
    } else {
      CommasSplit(texts[1..]);
      SplitComma(texts[0], JoinCommas(texts[1..]));
    }
  }

  lemma {:induction false} SplitComma(text: string, rest: string)
    requires ',' !in text
    ensures P.Split(text + "," + rest, ',') == [text] + P.Split(rest, ',')
  {
    var whole := text + "," + rest;
    if text == "" {
      assert whole[0] == ',' && whole[1..] == rest;
    } else {
      assert text[0] in text && whole[0] == text[0] && whole[1..] == text[1..] + "," + rest;
      SplitComma(text[1..], rest);
      assert [text[0]] + text[1..] == text;
    }
  }

  /** The variables the installer is to be started with. */
  function EnvWords(s: Settings): seq<string> {
    NumberWords(s) + AddressWords(s) + CandidateWords(s) + OptionalWords(s) + IpsecWords(s.ipsec)
  }

  function NumberWords(s: Settings): seq<string> {
    ["VPN_INTERACTIVE=0", "VPN_L2TP_PORT=" + Itoa(s.port), "VPN_MTU=" + Itoa(s.mtu), "VPN_MRU=" + Itoa(s.mru)]
  }

  function AddressWords(s: Settings): seq<string> {
    ["VPN_LOCAL_IP=" + s.localIp, "VPN_CLIENT_POOL=" + s.clientPool, "VPN_CIDR=" + s.cidr, "VPN_PLATFORM_SCAN=1"]
  }

  function CandidateWords(s: Settings): seq<string> {
    ["VPN_VIP_CANDIDATES=" + JoinCommas(s.candidates), "VPN_VIPS=", "VPN_AUTO_CONFIG_FROM_USERS=0",
     "VPN_VIP_SCAN_PARALLEL=" + Itoa(s.parallel)]
  }

  function OptionalWords(s: Settings): seq<string> {
    (if s.probeTarget != "" then ["VPN_VIP_PROBE_TARGET=" + s.probeTarget] else [])
    + (if s.scanRange != "" then ["VPN_VIP_SCAN_RANGE=" + s.scanRange] else [])
  }

  function IpsecWords(ipsec: Ipsec): seq<string> {
    match ipsec
    case NoIpsec => ["VPN_ENABLE_IPSEC=0"]
    case RandomPsk => ["VPN_ENABLE_IPSEC=1", "VPN_RANDOM_PSK=1"]
    case Psk(psk) => ["VPN_ENABLE_IPSEC=1", "VPN_IPSEC_PSK=" + psk]
  }

  predicate NulFree(s: Settings) {
    && !HasNul(s.localIp) && !HasNul(s.clientPool) && !HasNul(s.cidr) && !HasNul(JoinCommas(s.candidates))
    && !HasNul(s.probeTarget) && !HasNul(s.scanRange) && (s.ipsec.Psk? ==> !HasNul(s.ipsec.psk))
  }

  // The texts the source writes for these words.

  function NumberTexts(s: Settings): seq<string> {
    ["VPN_INTERACTIVE=0", "VPN_L2TP_PORT=" + Itoa(s.port), "VPN_MTU=" + Itoa(s.mtu), "VPN_MRU=" + Itoa(s.mru)]
  }

  function AddressTexts(s: Settings): seq<string> {
    ["VPN_LOCAL_IP=" + Quote(s.localIp), "VPN_CLIENT_POOL=" + Quote(s.clientPool), "VPN_CIDR=" + Quote(s.cidr),
     "VPN_PLATFORM_SCAN=1"]
  }

  function CandidateTexts(s: Settings): seq<string> {
    ["VPN_VIP_CANDIDATES=" + Quote(JoinCommas(s.candidates)), "VPN_VIPS=''", "VPN_AUTO_CONFIG_FROM_USERS=0",
     "VPN_VIP_SCAN_PARALLEL=" + Itoa(s.parallel)]
  }

  function OptionalTexts(s: Settings): seq<string> {
    (if s.probeTarget != "" then ["VPN_VIP_PROBE_TARGET=" + Quote(s.probeTarget)] else [])
    + (if s.scanRange != "" then ["VPN_VIP_SCAN_RANGE=" + Quote(s.scanRange)] else [])
  }

  function IpsecTexts(ipsec: Ipsec): seq<string> {
    match ipsec
    case NoIpsec => ["VPN_ENABLE_IPSEC=0"]
    case RandomPsk => ["VPN_ENABLE_IPSEC=1", "VPN_RANDOM_PSK=1"]
    case Psk(psk) => ["VPN_ENABLE_IPSEC=1", "VPN_IPSEC_PSK=" + Quote(psk)]
  }

  function EnvTexts(s: Settings): seq<string> {
    NumberTexts(s) + AddressTexts(s) + CandidateTexts(s) + OptionalTexts(s) + IpsecTexts(s.ipsec)
  }

  /** The two words of the IPsec choice are passed on as one text. */
  function IpsecArgument(ipsec: Ipsec): string {
    match ipsec
    case NoIpsec => "VPN_ENABLE_IPSEC=0"
    case RandomPsk => "VPN_ENABLE_IPSEC=1 VPN_RANDOM_PSK=1"
    case Psk(psk) => "VPN_ENABLE_IPSEC=1 VPN_IPSEC_PSK=" + Quote(psk)
  }

  method InstallEnv(s: Settings, ipsec: string) returns (env: string)
    ensures ipsec == IpsecArgument(s.ipsec) ==> env == JoinSpaces(EnvTexts(s))
  {
    hide Quote, Itoa, JoinCommas, NumberTexts, AddressTexts, CandidateTexts, JoinSpaces;
    var values := NumberTexts(s) + AddressTexts(s) + CandidateTexts(s);
    if s.probeTarget != "" { values := values + ["VPN_VIP_PROBE_TARGET=" + Quote(s.probeTarget)]; }
    if s.scanRange != "" { values := values + ["VPN_VIP_SCAN_RANGE=" + Quote(s.scanRange)]; }
    env := JoinSpaces(values + [ipsec]);
    if ipsec == IpsecArgument(s.ipsec) {
      assert values == NumberTexts(s) + AddressTexts(s) + CandidateTexts(s) + OptionalTexts(s);
      JoinIpsec(values, s.ipsec);
    }
  }

  lemma {:induction false} JoinLast(texts: seq<string>, one: string, two: string)
    ensures JoinSpaces(texts + [one + " " + two]) == JoinSpaces(texts + [one, two])
  {
    if texts == [] {
      assert [] + [one + " " + two] == [one + " " + two] && [] + [one, two] == [one, two] && [one, two][1..] == [two];
    } else {
      JoinLast(texts[1..], one, two);
      assert (texts + [one + " " + two])[1..] == texts[1..] + [one + " " + two];
      assert (texts + [one, two])[1..] == texts[1..] + [one, two];
    }
  }

  lemma JoinIpsec(values: seq<string>, ipsec: Ipsec)
    ensures JoinSpaces(values + [IpsecArgument(ipsec)]) == JoinSpaces(values + IpsecTexts(ipsec))
  {
    hide Quote, JoinSpaces;
    match ipsec
    case NoIpsec =>
    case RandomPsk =>
      assert "VPN_ENABLE_IPSEC=1 VPN_RANDOM_PSK=1" == "VPN_ENABLE_IPSEC=1" + " " + "VPN_RANDOM_PSK=1";
      JoinLast(values, "VPN_ENABLE_IPSEC=1", "VPN_RANDOM_PSK=1");
    case Psk(psk) =>
      assert "VPN_ENABLE_IPSEC=1 VPN_IPSEC_PSK=" + Quote(psk)
          == "VPN_ENABLE_IPSEC=1" + " " + ("VPN_IPSEC_PSK=" + Quote(psk));
      JoinLast(values, "VPN_ENABLE_IPSEC=1", "VPN_IPSEC_PSK=" + Quote(psk));
  }

  lemma NumberReads(name: string, n: int)
    requires name != "" && AllPlain(name)
    ensures ReadsAs(name + Itoa(n), name + Itoa(n))
  {
    hide ReadsAs, Itoa;
    ItoaIsPlain(n);
    PlainReads(name + Itoa(n), "");
  }

  lemma ReadMore(texts: seq<string>, words: seq<string>, more: seq<string>, moreWords: seq<string>)
    requires AllRead(texts, words) && AllRead(more, moreWords)
    ensures AllRead(texts + more, words + moreWords)
  {
    hide ReadsAs;
  }

  lemma NumbersRead(s: Settings)
    ensures AllRead(NumberTexts(s), NumberWords(s))
  {
    hide ReadsAs, Itoa;
    PlainReads("VPN_INTERACTIVE=0", "");
    NumberReads("VPN_L2TP_PORT=", s.port);
    NumberReads("VPN_MTU=", s.mtu);
    NumberReads("VPN_MRU=", s.mru);
  }

  lemma LocalIpReads(v: string)
    requires !HasNul(v)
    ensures ReadsAs("VPN_LOCAL_IP=" + Quote(v), "VPN_LOCAL_IP=" + v)
  {
    hide ReadsAs, Quote, HasNul;
    PlainReads("VPN_LOCAL_IP=", v);
  }

  lemma ClientPoolReads(v: string)
    requires !HasNul(v)
    ensures ReadsAs("VPN_CLIENT_POOL=" + Quote(v), "VPN_CLIENT_POOL=" + v)
  {
    hide ReadsAs, Quote, HasNul;
    PlainReads("VPN_CLIENT_POOL=", v);
  }

  lemma CidrReads(v: string)
    requires !HasNul(v)
    ensures ReadsAs("VPN_CIDR=" + Quote(v), "VPN_CIDR=" + v)
  {
    hide ReadsAs, Quote, HasNul;
    PlainReads("VPN_CIDR=", v);
  }

  lemma CandidateListReads(v: string)
    requires !HasNul(v)
    ensures ReadsAs("VPN_VIP_CANDIDATES=" + Quote(v), "VPN_VIP_CANDIDATES=" + v)
  {
    hide ReadsAs, Quote, HasNul;
    PlainReads("VPN_VIP_CANDIDATES=", v);
  }

  lemma SwitchesRead()
    ensures ReadsAs("VPN_PLATFORM_SCAN=1", "VPN_PLATFORM_SCAN=1")
    ensures ReadsAs("VPN_AUTO_CONFIG_FROM_USERS=0", "VPN_AUTO_CONFIG_FROM_USERS=0")
  {
    hide ReadsAs;
    PlainReads("VPN_PLATFORM_SCAN=1", "");
    PlainReads("VPN_AUTO_CONFIG_FROM_USERS=0", "");
  }

  lemma ParallelReads(n: int)
    ensures ReadsAs("VPN_VIP_SCAN_PARALLEL=" + Itoa(n), "VPN_VIP_SCAN_PARALLEL=" + Itoa(n))
  {
    hide ReadsAs, Itoa;
    NumberReads("VPN_VIP_SCAN_PARALLEL=", n);
  }

  lemma AddressesRead(s: Settings)
    requires NulFree(s)
    ensures AllRead(AddressTexts(s), AddressWords(s))
  {
    hide ReadsAs, Quote, HasNul;
    LocalIpReads(s.localIp);
    ClientPoolReads(s.clientPool);
    CidrReads(s.cidr);
    SwitchesRead();
  }

  lemma CandidatesRead(s: Settings)
    requires NulFree(s)
    ensures AllRead(CandidateTexts(s), CandidateWords(s))
  {
    hide ReadsAs, Quote, HasNul, Itoa, JoinCommas;
    CandidateListReads(JoinCommas(s.candidates));
    EmptyReads();
    SwitchesRead();
    ParallelReads(s.parallel);
  }

  lemma EmptyReads()
    ensures ReadsAs("VPN_VIPS=''", "VPN_VIPS=")
  {
    hide ReadsAs;
    PlainReads("VPN_VIPS=", "");
    assert Quote("") == "''";
    assert "VPN_VIPS=" + Quote("") == "VPN_VIPS=''";
    assert "VPN_VIPS=" + "" == "VPN_VIPS=";
  }

  lemma OptionalsRead(s: Settings)
    requires NulFree(s)
    ensures AllRead(OptionalTexts(s), OptionalWords(s))
  {
    hide ReadsAs, Quote, HasNul;
    PlainReads("VPN_VIP_PROBE_TARGET=", s.probeTarget);
    PlainReads("VPN_VIP_SCAN_RANGE=", s.scanRange);
  }

  lemma IpsecReads(ipsec: Ipsec)
    requires ipsec.Psk? ==> !HasNul(ipsec.psk)
    ensures AllRead(IpsecTexts(ipsec), IpsecWords(ipsec))
  {
    hide ReadsAs, Quote, HasNul;
    match ipsec
    case NoIpsec => PlainReads("VPN_ENABLE_IPSEC=0", "");
    case RandomPsk =>
      PlainReads("VPN_ENABLE_IPSEC=1", "");
      PlainReads("VPN_RANDOM_PSK=1", "");
    case Psk(psk) =>
      PlainReads("VPN_ENABLE_IPSEC=1", "");
      PlainReads("VPN_IPSEC_PSK=", psk);
  }

  lemma EnvReads(s: Settings)
    requires NulFree(s)
    ensures AllRead(EnvTexts(s), EnvWords(s))
  {
    assert s.ipsec.Psk? ==> !HasNul(s.ipsec.psk);
    hide NulFree, AllRead, NumberTexts, NumberWords, AddressTexts, AddressWords, CandidateTexts, CandidateWords, OptionalTexts,
      OptionalWords, IpsecTexts, IpsecWords;
    var texts, words := NumberTexts(s), NumberWords(s);
    NumbersRead(s);
    AddressesRead(s);
    ReadMore(texts, words, AddressTexts(s), AddressWords(s));
    texts, words := texts + AddressTexts(s), words + AddressWords(s);
    CandidatesRead(s);
    ReadMore(texts, words, CandidateTexts(s), CandidateWords(s));
    texts, words := texts + CandidateTexts(s), words + CandidateWords(s);
    OptionalsRead(s);
    ReadMore(texts, words, OptionalTexts(s), OptionalWords(s));
    texts, words := texts + OptionalTexts(s), words + OptionalWords(s);
    IpsecReads(s.ipsec);
    ReadMore(texts, words, IpsecTexts(s.ipsec), IpsecWords(s.ipsec));
  }

  // ---------------------------------------------------------------- the command

  /** The texts of the command that starts the installer under this environment. */
  function StartTexts(s: Settings, source: string, script: string): seq<string> {
    ["env"] + EnvTexts(s) + ["VPN_XL2TPD_SOURCE_FILE=" + Quote(source)] + ["bash", Quote(script)]
  }

  function StartWords(s: Settings, source: string, script: string): seq<string> {
    ["env"] + EnvWords(s) + ["VPN_XL2TPD_SOURCE_FILE=" + source] + ["bash", script]
  }

  lemma StartReads(s: Settings, source: string, script: string)
    requires NulFree(s) && !HasNul(source) && !HasNul(script)
    ensures AllRead(StartTexts(s, source, script), StartWords(s, source, script))
  {
    hide NulFree, EnvTexts, EnvWords, ReadsAs, Quote, HasNul;
    PlainReads("env", "");
    EnvReads(s);
    ReadMore(["env"], ["env"], EnvTexts(s), EnvWords(s));
    PlainReads("VPN_XL2TPD_SOURCE_FILE=", source);
    ReadMore(["env"] + EnvTexts(s), ["env"] + EnvWords(s),
             ["VPN_XL2TPD_SOURCE_FILE=" + Quote(source)], ["VPN_XL2TPD_SOURCE_FILE=" + source]);
    PlainReads("bash", "");
    QuoteReads(script);
    ReadMore(["env"] + EnvTexts(s) + ["VPN_XL2TPD_SOURCE_FILE=" + Quote(source)],
             ["env"] + EnvWords(s) + ["VPN_XL2TPD_SOURCE_FILE=" + source], ["bash", Quote(script)], ["bash", script]);
  }

  /** The two branches of the command's last statement: as root, and otherwise through sudo. */
  function Branches(s: Settings, source: string, script: string): string {
    var env := JoinSpaces(EnvTexts(s)) + (" " + ("VPN_XL2TPD_SOURCE_FILE=" + Quote(source)));
    "then env " + env + " bash " + Quote(script) + "; else sudo env " + env + " bash " + Quote(script) + "; fi"
  }

  lemma {:induction false} JoinConcat(a: seq<string>, b: seq<string>)
    requires a != [] && b != []
    ensures JoinSpaces(a + b) == JoinSpaces(a) + " " + JoinSpaces(b)
  {
    assert (a + b)[1..] == a[1..] + b;
    if |a| == 1 {
      assert a[1..] + b == b;
    } else {
      JoinConcat(a[1..], b);
    }
  }

  lemma JoinOne(text: string)
    ensures JoinSpaces([text]) == text
  {
  }

  lemma Regroup(first: string, space: string, env: string, named: string, second: string, quoted: string)
    ensures (first + space) + (env + (space + named)) + (space + second + space) + quoted
         == first + space + env + space + named + space + (second + space + quoted)
  {
  }

  /** The concatenated start command is the joined list of its words. */
  lemma StartText(s: Settings, source: string, script: string)
    ensures JoinSpaces(StartTexts(s, source, script))
         == "env " + (JoinSpaces(EnvTexts(s)) + (" " + ("VPN_XL2TPD_SOURCE_FILE=" + Quote(source)))) + " bash " + Quote(script)
  {
    EnvNotEmpty(s);
    StartParts("VPN_XL2TPD_SOURCE_FILE=" + Quote(source), Quote(script), EnvTexts(s));
  }

  lemma StartParts(named: string, quoted: string, texts: seq<string>)
    requires texts != []
    ensures JoinSpaces(["env"] + texts + [named] + ["bash", quoted])
         == "env " + (JoinSpaces(texts) + (" " + named)) + " bash " + quoted
  {
    hide JoinSpaces;
    JoinConcat(["env"], texts);
    JoinConcat(["env"] + texts, [named]);
    JoinConcat(["env"] + texts + [named], ["bash", quoted]);
    JoinOne("env");
    JoinOne(named);
    JoinThree("bash", quoted, "");
    assert "env " == "env" + " " && " bash " == " " + "bash" + " ";
    Regroup("env", " ", JoinSpaces(texts), named, "bash", quoted);
  }

  lemma EnvNotEmpty(s: Settings)
    ensures EnvTexts(s) != []
  {
    assert |NumberTexts(s)| == 4;
  }

  /** Every setting reaches the installer as typed, as one variable each, in the place where the command starts it:
      whatever was read before and whatever follows, each branch is read as exactly the start command. */
  lemma StartArrives(s: Settings, source: string, script: string, rest: string, read: seq<Token>)
    requires NulFree(s) && !HasNul(source) && !HasNul(script)
    ensures Scan(Branches(s, source, script) + rest, Unquoted, None, read)
         == Scan(rest, Unquoted, Some("fi"),
                 read + Words(["then"] + StartWords(s, source, script)) + [Semicolon]
                      + Words(["else", "sudo"] + StartWords(s, source, script)) + [Semicolon])
  {
    hide NulFree, EnvTexts, StartTexts, StartWords, ReadsAs, Quote, HasNul, JoinSpaces, Words, Scan;
    var texts, words := StartTexts(s, source, script), StartWords(s, source, script);
    StartReads(s, source, script);
    StartText(s, source, script);
    StartNotEmpty(s, source, script);
    PlainReads("then", "");
    PlainReads("else", "");
    PlainReads("sudo", "");
    PlainReads("fi", "");
    ReadMore(["then"], ["then"], texts, words);
    ReadMore(["else", "sudo"], ["else", "sudo"], texts, words);
    JoinConcat(["then"], texts);
    JoinConcat(["else", "sudo"], texts);
    JoinOne("then");
    JoinThree("else", "sudo", "");
    var last := "fi" + rest;
    var second := JoinSpaces(["else", "sudo"] + texts) + ("; " + last);
    BranchText(s, source, script, rest);
    Statement(["then"] + texts, ["then"] + words, second, read);
    Statement(["else", "sudo"] + texts, ["else", "sudo"] + words, last, read + Words(["then"] + words) + [Semicolon]);
    ReadsHere("fi", "fi", rest, read + Words(["then"] + words) + [Semicolon] + Words(["else", "sudo"] + words) + [Semicolon]);
  }

  lemma StartNotEmpty(s: Settings, source: string, script: string)
    ensures StartTexts(s, source, script) != []
  {
    hide EnvTexts, Quote;
  }

  lemma BranchText(s: Settings, source: string, script: string, rest: string)
    ensures
      var start := JoinSpaces(StartTexts(s, source, script));
      Branches(s, source, script) + rest
      == ("then" + " " + start) + ("; " + (("else" + " " + "sudo" + " " + start) + ("; " + ("fi" + rest))))
  {
    StartText(s, source, script);
    hide EnvTexts, Quote, JoinSpaces, StartTexts;
    var env := JoinSpaces(EnvTexts(s)) + (" " + ("VPN_XL2TPD_SOURCE_FILE=" + Quote(source)));
    BranchParts(env, Quote(script), rest);
  }

  lemma BranchParts(env: string, quoted: string, rest: string)
    ensures "then env " + env + " bash " + quoted + "; else sudo env " + env + " bash " + quoted + "; fi" + rest
         == ("then" + " " + ("env " + env + " bash " + quoted))
            + ("; " + (("else" + " " + "sudo" + " " + ("env " + env + " bash " + quoted)) + ("; " + ("fi" + rest))))
  {
    BranchLiterals();
    RegroupBranches("then" + " ", "env ", env, " bash " + quoted, "; ", "else" + " " + "sudo" + " ", "fi", rest);
    assert "env " + env + (" bash " + quoted) == "env " + env + " bash " + quoted;
    assert "then env " + env + " bash " + quoted + "; else sudo env " + env + " bash " + quoted + "; fi" + rest
        == ("then" + " ") + "env " + env + (" bash " + quoted)
           + ("; " + ("else" + " " + "sudo" + " ") + "env ") + env + (" bash " + quoted) + ("; " + "fi") + rest;
  }

  lemma BranchLiterals()
    ensures "then env " == "then" + " " + "env "
    ensures "; else sudo env " == "; " + ("else" + " " + "sudo" + " ") + "env "
    ensures "; fi" == "; " + "fi"
  {
  }

  lemma RegroupBranches(yes: string, start: string, env: string, tail: string, stop: string, no: string, end: string,
                        rest: string)
    ensures yes + start + env + tail + (stop + no + start) + env + tail + (stop + end) + rest
         == (yes + (start + env + tail)) + (stop + ((no + (start + env + tail)) + (stop + (end + rest))))
  {
  }

  /** The command as the source builds it. `prepare` installs the users file first, if there is one. */
  method InstallCommand(s: Settings, script: string, source: string, users: Option<string>, prepare: string)
    returns (command: string)
    ensures command
         == CommandStart(JoinSpaces(["rm", "-f"] + Quoted(TemporaryFiles(script, source, users))), script)
            + prepare + "if [ \"$(id -u)\" -eq 0 ]; " + Branches(s, source, script)
  {
    hide Quote, JoinSpaces, EnvTexts;
    var env := InstallEnv(s, IpsecArgument(s.ipsec));
    env := env + (" " + ("VPN_XL2TPD_SOURCE_FILE=" + Quote(source)));
    var cleanup := Cleanup(script, source, users);
    command := "set -e; trap " + Quote(cleanup) + " EXIT; chmod 700 " + Quote(script) + "; ";
    command := command + prepare;
    command := command + "if [ \"$(id -u)\" -eq 0 ]; ";
    command := command
      + ("then env " + env + " bash " + Quote(script) + "; else sudo env " + env + " bash " + Quote(script) + "; fi");
  }

  /** The files to remove when the command ends; the users file only when one was written. */
  function TemporaryFiles(script: string, source: string, users: Option<string>): seq<string> {
    match users
    case Some(file) => [script, source, file]
    case None => [script, source]
  }

  method Cleanup(script: string, source: string, users: Option<string>) returns (cleanup: string)
    ensures cleanup == JoinSpaces(["rm", "-f"] + Quoted(TemporaryFiles(script, source, users)))
  {
    hide Quote, JoinSpaces;
    cleanup := "rm -f " + Quote(script) + " " + Quote(source);
    assert "rm -f " == "rm" + " " + "-f" + " ";
    assert Quoted([script, source]) == [Quote(script), Quote(source)];
    JoinThree("rm", "-f", Quote(script));
    JoinMore(["rm", "-f", Quote(script)], Quote(source));
    assert ["rm", "-f", Quote(script)] + [Quote(source)] == ["rm", "-f", Quote(script), Quote(source)];
    assert cleanup == JoinSpaces(["rm", "-f", Quote(script), Quote(source)]);
    if users.Some? {
      JoinMore(["rm", "-f", Quote(script), Quote(source)], Quote(users.value));
      assert Quoted([script, source, users.value]) == [Quote(script), Quote(source), Quote(users.value)];
      cleanup := cleanup + " " + Quote(users.value);
      assert ["rm", "-f"] + [Quote(script), Quote(source), Quote(users.value)]
          == ["rm", "-f", Quote(script), Quote(source)] + [Quote(users.value)];
    } else {
      assert ["rm", "-f"] + [Quote(script), Quote(source)] == ["rm", "-f", Quote(script), Quote(source)];
    }
  }

  lemma {:induction false} JoinMore(texts: seq<string>, text: string)
    requires texts != []
    ensures JoinSpaces(texts + [text]) == JoinSpaces(texts) + " " + text
  {
    assert (texts + [text])[1..] == texts[1..] + [text];
    if |texts| > 1 { JoinMore(texts[1..], text); }
  }

  lemma JoinThree(a: string, b: string, c: string)
    ensures JoinSpaces([a, b]) == a + " " + b
    ensures JoinSpaces([a, b, c]) == a + " " + b + " " + c
  {
    assert [a] + [b] == [a, b] && [a, b] + [c] == [a, b, c];
    JoinMore([a], b);
    JoinMore([a, b], c);
  }

  /** The beginning of the installation command, up to what depends on the users file. */
  function CommandStart(cleanup: string, script: string): string {
    "set -e; trap " + Quote(cleanup) + " EXIT; chmod 700 " + Quote(script) + "; "
  }

  lemma Statement(texts: seq<string>, words: seq<string>, rest: string, read: seq<Token>)
    requires AllRead(texts, words) && texts != []
    ensures Scan(JoinSpaces(texts) + ("; " + rest), Unquoted, None, read)
         == Scan(rest, Unquoted, None, read + Words(words) + [Semicolon])
  {
    assert |texts| == |words|;
    hide Scan, ReadsAs, AllRead;
    ScanWords(texts, words, "; " + rest, read);
    var front, last := words[..|words| - 1], words[|words| - 1];
    ScanSpace(rest, last, read + Words(front));
    assert read + Words(front) + [Word(last), Semicolon] == read + Words(words) + [Semicolon];
  }

  /**
   * Quoting twice and reading twice: the command's trap receives one argument, which the shell reads again, when the
   * trap runs, as the removal of exactly the temporary files.
   */
  lemma TrapRemovesFiles(script: string, source: string, users: Option<string>, rest: string)
    requires !HasNul(script) && !HasNul(source) && (users.Some? ==> !HasNul(users.value))
    ensures var files := TemporaryFiles(script, source, users);
      var cleanup := JoinSpaces(["rm", "-f"] + Quoted(files));
      && Lex(cleanup) == Some(Words(["rm", "-f"] + files))
      && Scan(CommandStart(cleanup, script) + rest, Unquoted, None, [])
         == Scan(rest, Unquoted, None, Words(["set", "-e"]) + [Semicolon] + Words(["trap", cleanup, "EXIT"])
                                       + [Semicolon] + Words(["chmod", "700", script]) + [Semicolon])
  {
    hide Scan, ReadsAs, Quote, HasNul, Words;
    var files := TemporaryFiles(script, source, users);
    var texts, words := ["rm", "-f"] + Quoted(files), ["rm", "-f"] + files;
    PlainReads("rm", "");
    PlainReads("-f", "");
    forall i | 0 <= i < |files| ensures ReadsAs(Quoted(files)[i], files[i]) { QuoteReads(files[i]); }
    LexWords(texts, words);
    var cleanup := JoinSpaces(texts);
    assert !HasNul(cleanup) by {
      if HasNul(cleanup) { NulIsRefused(cleanup, Unquoted, None, []); }
    }
    CommandReads(cleanup, script, rest);
  }

  lemma CommandReads(cleanup: string, script: string, rest: string)
    requires !HasNul(cleanup) && !HasNul(script)
    ensures Scan(CommandStart(cleanup, script) + rest, Unquoted, None, [])
         == Scan(rest, Unquoted, None, Words(["set", "-e"]) + [Semicolon] + Words(["trap", cleanup, "EXIT"])
                                       + [Semicolon] + Words(["chmod", "700", script]) + [Semicolon])
  {
    hide Scan, AllRead, Quote, HasNul, Words, CommandStart, JoinSpaces;
    var one, two, three := ["set", "-e"], ["trap", Quote(cleanup), "EXIT"], ["chmod", "700", Quote(script)];
    CommandWords(cleanup, script);
    CommandParts(cleanup, script);
    var last := JoinSpaces(three) + ("; " + rest);
    var middle := JoinSpaces(two) + ("; " + last);
    assert CommandStart(cleanup, script) + rest == JoinSpaces(one) + ("; " + middle);
    Statement(one, one, middle, []);
    Statement(two, ["trap", cleanup, "EXIT"], last, [] + Words(one) + [Semicolon]);
    Statement(three, ["chmod", "700", script], rest,
              [] + Words(one) + [Semicolon] + Words(["trap", cleanup, "EXIT"]) + [Semicolon]);
    assert [] + Words(one) == Words(one);
  }

  lemma CommandWords(cleanup: string, script: string)
    requires !HasNul(cleanup) && !HasNul(script)
    ensures AllRead(["set", "-e"], ["set", "-e"])
    ensures AllRead(["trap", Quote(cleanup), "EXIT"], ["trap", cleanup, "EXIT"])
    ensures AllRead(["chmod", "700", Quote(script)], ["chmod", "700", script])
  {
    hide ReadsAs, Quote, HasNul;
    PlainReads("set", "");
    PlainReads("-e", "");
    PlainReads("trap", "");
    QuoteReads(cleanup);
    PlainReads("EXIT", "");
    PlainReads("chmod", "");
    PlainReads("700", "");
    QuoteReads(script);
  }

  lemma CommandParts(cleanup: string, script: string)
    ensures CommandStart(cleanup, script)
         == JoinSpaces(["set", "-e"]) + "; " + JoinSpaces(["trap", Quote(cleanup), "EXIT"]) + "; "
            + JoinSpaces(["chmod", "700", Quote(script)]) + "; "
  {
    hide Quote, JoinSpaces;
    JoinThree("set", "-e", "");
    JoinThree("trap", Quote(cleanup), "EXIT");
    JoinThree("chmod", "700", Quote(script));
    assert "set -e; trap " == "set" + " " + "-e" + "; " + ("trap" + " ");
    assert " EXIT; chmod 700 " == " " + "EXIT" + "; " + ("chmod" + " " + "700" + " ");
  }
}
