/** What the tests for a phrase mean, character by character: the refusals of a region (internal/ctyun/client.go:382-389)
    and the statuses of a resource (internal/httpserver/background.go:258-275). */
module Phrases {
  import opened RegionListing

  /** The characters whose lower case is this small letter; any other character stands for itself. */
  predicate Spells(c: char, letter: char) {
    || c == letter
    || ('a' <= letter <= 'z' && c as int == letter as int - 32)
    || (letter == 'k' && c == '\U{212A}')
    || (letter == 'i' && c == '\U{0130}')
  }

  predicate SaysAt(text: string, phrase: string, at: nat) {
    at + |phrase| <= |text| && forall k :: 0 <= k < |phrase| ==> Spells(text[at + k], phrase[k])
  }

  /** The phrase stands somewhere in the text, in whatever case. */
  ghost predicate Says(text: string, phrase: string) {
    exists at: nat :: SaysAt(text, phrase, at)
  }

  /** The text is the word, in whatever case. */
  predicate SaysOnly(text: string, word: string) {
    |text| == |word| && SaysAt(text, word, 0)
  }

  /** Small letters and spaces. */
  predicate Plain(phrase: string) {
    forall k :: 0 <= k < |phrase| ==> 'a' <= phrase[k] <= 'z' || phrase[k] == ' '
  }

  ghost predicate StandsAt(text: string, part: string, at: nat) {
    at + |part| <= |text| && text[at..at + |part|] == part
  }

  lemma StandsLater(text: string, part: string, at: nat)
    requires text != ""
    ensures StandsAt(text[1..], part, at) <==> StandsAt(text, part, at + 1)
  {
    if at + 1 + |part| <= |text| { assert text[1..][at..at + |part|] == text[at + 1..at + 1 + |part|]; }
  }

  lemma {:induction false} ContainsAt(text: string, part: string)
    ensures Contains(text, part) <==> exists at: nat :: StandsAt(text, part, at)
  {
    if part <= text {
      assert StandsAt(text, part, 0);
    } else if text != "" {
      ContainsAt(text[1..], part);
      forall at: nat ensures StandsAt(text[1..], part, at) <==> StandsAt(text, part, at + 1) {
        StandsLater(text, part, at);
      }
      if at: nat :| StandsAt(text, part, at) {
        assert text[0..|part|] == text[..|part|] || at > 0;
        StandsLater(text, part, at - 1);
      }
    }
  }

  lemma LowerSpells(text: string, i: nat, letter: char)
    requires i < |text| && ('a' <= letter <= 'z' || letter == ' ')
    ensures |Lower(text)| == |text| && (Lower(text)[i] == letter <==> Spells(text[i], letter))
  {
  }

  lemma LowerStandsAt(text: string, phrase: string, at: nat)
    requires Plain(phrase)
    ensures StandsAt(Lower(text), phrase, at) <==> SaysAt(text, phrase, at)
  {
    hide Lower, Spells;
    assert |Lower(text)| == |text| by { LowerLength(text); }
    if at + |phrase| <= |text| {
      var here := Lower(text)[at..at + |phrase|];
      forall k | 0 <= k < |phrase| ensures here[k] == phrase[k] <==> Spells(text[at + k], phrase[k]) {
        LowerSpells(text, at + k, phrase[k]);
      }
    }
  }

  lemma LowerLength(text: string)
    ensures |Lower(text)| == |text|
  {
  }

  /** Looking for a phrase in the lower-cased text is looking for its letters in either case. */
  lemma LowerContains(text: string, phrase: string)
    requires Plain(phrase)
    ensures Contains(Lower(text), phrase) <==> Says(text, phrase)
  {
    hide Contains, Lower, SaysAt, StandsAt, Plain;
    ContainsAt(Lower(text), phrase);
    forall at: nat ensures StandsAt(Lower(text), phrase, at) <==> SaysAt(text, phrase, at) {
      LowerStandsAt(text, phrase, at);
    }
  }

  lemma LowerEquals(text: string, word: string)
    requires Plain(word)
    ensures Lower(text) == word <==> SaysOnly(text, word)
  {
    hide Lower, SaysAt, Plain;
    LowerLength(text);
    LowerStandsAt(text, word, 0);
    if SaysOnly(text, word) {
      assert Lower(text)[0..|word|] == Lower(text);
    }
  }

  lemma SupportPhrases(message: string)
    ensures Contains(Lower(message), "region is not supported") <==> Says(message, "region is not supported")
    ensures Contains(Lower(message), "region not supported") <==> Says(message, "region not supported")
  {
    hide Contains, Lower, Says;
    LowerContains(message, "region is not supported");
    LowerContains(message, "region not supported");
  }

  lemma AccessPhrases(message: string)
    ensures Contains(Lower(message), "region is not allow to access") <==> Says(message, "region is not allow to access")
    ensures Contains(Lower(message), "region is not allowed to access") <==> Says(message, "region is not allowed to access")
  {
    hide Contains, Lower, Says;
    LowerContains(message, "region is not allow to access");
    LowerContains(message, "region is not allowed to access");
  }

  lemma PermissionPhrase(message: string)
    ensures Contains(Lower(message), "no permission for region") <==> Says(message, "no permission for region")
  {
    hide Contains, Lower, Says;
    LowerContains(message, "no permission for region");
  }

  /** A refusal is an answer that says one of five phrases, anywhere and in any case. */
  lemma RefusalMeaning(message: string)
    ensures UnsupportedRegion(message)
       <==> || Says(message, "region is not supported")
            || Says(message, "region not supported")
            || Says(message, "region is not allow to access")
            || Says(message, "region is not allowed to access")
            || Says(message, "no permission for region")
  {
    hide Contains, Lower, Says;
    SupportPhrases(message);
    AccessPhrases(message);
    PermissionPhrase(message);
  }
}
