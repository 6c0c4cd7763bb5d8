/**
 Masking secrets in a text (`redact` in `redact.py`): each non-empty secret, the longest first, is
 replaced from left to right by four bullets.
 */
module Redact {
  import opened Sequences

  const BULLET := '\U{2022}'
  const MASK: string := [BULLET, BULLET, BULLET, BULLET]

  // -------------------------------------------------------------- occurrences

  lemma ContainsLater(text: string, word: string, k: nat)
    requires k <= |text| && Contains(text[k..], word)
    ensures Contains(text, word)
  {
    var i :| 0 <= i <= |text| - k && At(text[k..], word, i);
    assert text[k..][i..i + |word|] == text[k + i..k + i + |word|];
    assert At(text, word, k + i);
  }

  lemma AtLater(front: string, rest: string, word: string, i: int)
    requires i >= |front|
    ensures At(front + rest, word, i) <==> At(rest, word, i - |front|)
  {
    if i <= |front| + |rest| - |word| {
      assert (front + rest)[i..i + |word|] == rest[i - |front|..i - |front| + |word|];
    }
  }

  /** Replacing from left to right, never looking at what was already replaced. */
  function Replace(text: string, word: string): string
    requires word != ""
    decreases |text|
  {
    if text == "" then ""
    else if word <= text then MASK + Replace(text[|word|..], word)
    else [text[0]] + Replace(text[1..], word)
  }

  /** What replacing means: the text up to the first occurrence is kept, that occurrence becomes the
      mask, and the rest is treated in the same way. */
  lemma {:induction false} ReplaceFirst(text: string, word: string, i: nat)
    requires word != "" && At(text, word, i) && forall j :: 0 <= j < i ==> !At(text, word, j)
    ensures Replace(text, word) == text[..i] + MASK + Replace(text[i + |word|..], word)
    decreases i
  {
    if i == 0 {
      assert word <= text;
      assert text[..0] + MASK == MASK;
    } else {
      assert !At(text, word, 0) && !(word <= text);
      var rest := text[1..];
      assert Replace(text, word) == [text[0]] + Replace(rest, word);
      hide Replace;
      assert text == [text[0]] + rest;
      forall j: int | 0 <= j < i ensures At(rest, word, j) <==> At(text, word, j + 1) {
        AtLater([text[0]], rest, word, j + 1);
      }
      ReplaceFirst(rest, word, i - 1);
      assert rest[i - 1 + |word|..] == text[i + |word|..];
      assert [text[0]] + rest[..i - 1] == text[..i];
    }
  }

  lemma {:induction false} ReplaceNothing(text: string, word: string)
    requires word != "" && !Contains(text, word)
    ensures Replace(text, word) == text
    decreases |text|
  {
    if text != "" {
      assert !At(text, word, 0);
      if Contains(text[1..], word) {
        ContainsLater(text, word, 1);
      }
      ReplaceNothing(text[1..], word);
    }
  }

  lemma TooShort(text: string, word: string)
    requires |text| < |word|
    ensures !Contains(text, word)
  {
  }

  // -------------------------------------------------------------- the redaction

  predicate LongestBeforeShortest(words: seq<string>) {
    forall i, j :: 0 <= i < j < |words| ==> |words[i]| >= |words[j]|
  }

  function NonEmpty(secrets: seq<string>): (r: seq<string>)
    ensures forall s :: s in r <==> s in secrets && s != ""
  {
    if secrets == [] then []
    else (if secrets[0] == "" then [] else [secrets[0]]) + NonEmpty(secrets[1..])
  }

  lemma SameMembers(a: seq<string>, b: seq<string>)
    requires multiset(a) == multiset(b)
    ensures forall s :: s in a <==> s in b
  {
    forall s ensures s in a <==> s in b {
      assert s in a <==> s in multiset(a);
      assert s in b <==> s in multiset(b);
    }
  }

  function Insert(word: string, words: seq<string>): seq<string> {
    if words == [] || |word| >= |words[0]| then [word] + words
    else [words[0]] + Insert(word, words[1..])
  }

  lemma {:induction false} InsertKeeps(word: string, words: seq<string>)
    ensures multiset(Insert(word, words)) == multiset(words) + multiset{word}
  {
    if words != [] && |word| < |words[0]| {
      InsertKeeps(word, words[1..]);
      assert words == [words[0]] + words[1..];
    }
  }

  lemma {:induction false} InsertSorts(word: string, words: seq<string>)
    requires LongestBeforeShortest(words)
    ensures LongestBeforeShortest(Insert(word, words))
  {
    if words != [] && |word| < |words[0]| {
      InsertSorts(word, words[1..]);
      InsertKeeps(word, words[1..]);
      assert multiset([word] + words[1..]) == multiset(words[1..]) + multiset{word};
      var tail := Insert(word, words[1..]);
      assert Insert(word, words) == [words[0]] + tail;
      hide Insert;
      SameMembers(tail, [word] + words[1..]);
      LongerFirst(words[0], tail);
    }
  }

  lemma LongerFirst(word: string, words: seq<string>)
    requires LongestBeforeShortest(words) && forall w :: w in words ==> |w| <= |word|
    ensures LongestBeforeShortest([word] + words)
  {
    assert forall i :: 0 <= i < |words| ==> words[i] in words;
  }

  /** The order in which the secrets are masked; secrets of one length keep their order. */
  function LongestFirst(secrets: seq<string>): seq<string> {
    if secrets == [] then [] else Insert(secrets[0], LongestFirst(secrets[1..]))
  }

  lemma {:induction false} LongestFirstSorts(secrets: seq<string>)
    ensures LongestBeforeShortest(LongestFirst(secrets))
    ensures multiset(LongestFirst(secrets)) == multiset(secrets)
  {
    if secrets != [] {
      LongestFirstSorts(secrets[1..]);
      InsertSorts(secrets[0], LongestFirst(secrets[1..]));
      InsertKeeps(secrets[0], LongestFirst(secrets[1..]));
      assert secrets == [secrets[0]] + secrets[1..];
    }
  }

  function OfLength(words: seq<string>, n: nat): seq<string> {
    if words == [] then []
    else (if |words[0]| == n then [words[0]] else []) + OfLength(words[1..], n)
  }

  lemma {:induction false} InsertIsStable(word: string, words: seq<string>, n: nat)
    requires LongestBeforeShortest(words)
    ensures OfLength(Insert(word, words), n) == OfLength([word] + words, n)
  {
    if words != [] && |word| < |words[0]| {
      InsertIsStable(word, words[1..], n);
      OfLengthStep(words[0], Insert(word, words[1..]), n);
      OfLengthStep(word, words[1..], n);
      OfLengthStep(word, words, n);
    }
  }

  lemma OfLengthStep(word: string, words: seq<string>, n: nat)
    ensures OfLength([word] + words, n) == (if |word| == n then [word] else []) + OfLength(words, n)
  {
    assert ([word] + words)[1..] == words;
  }

  lemma {:induction false} LongestFirstIsStable(secrets: seq<string>, n: nat)
    ensures OfLength(LongestFirst(secrets), n) == OfLength(secrets, n)
  {
    if secrets != [] {
      LongestFirstIsStable(secrets[1..], n);
      LongestFirstSorts(secrets[1..]);
      var words := LongestFirst(secrets[1..]);
      InsertIsStable(secrets[0], words, n);
      assert ([secrets[0]] + words)[1..] == words;
    }
  }

  predicate NoneEmpty(words: seq<string>) {
    forall i :: 0 <= i < |words| ==> words[i] != ""
  }

  /** Every secret masked in turn, in the given order. */
  function MaskAll(text: string, order: seq<string>): string
    requires NoneEmpty(order)
    decreases |order|
  {
    if order == [] then text else MaskAll(Replace(text, order[0]), order[1..])
  }

  function Order(secrets: seq<string>): (r: seq<string>)
    ensures NoneEmpty(r) && LongestBeforeShortest(r)
    ensures forall s :: s in r <==> s in secrets && s != ""
  {
    LongestFirstSorts(NonEmpty(secrets));
    var r := LongestFirst(NonEmpty(secrets));
    SameMembers(r, NonEmpty(secrets));
    assert NoneEmpty(r) by {
      assert forall i :: 0 <= i < |r| ==> r[i] in r;
    }
    r
  }

  function Redacted(text: string, secrets: seq<string>): string {
    MaskAll(text, Order(secrets))
  }

  method Redact(text: string, secrets: seq<string>) returns (redacted: string)
    ensures redacted == Redacted(text, secrets)
  {
    redacted := text;
    var order := Order(secrets);
    var i := 0;
    while i < |order|
      invariant 0 <= i <= |order|
      invariant MaskAll(redacted, order[i..]) == MaskAll(text, order)
    {
      assert order[i..][1..] == order[i + 1..];
      redacted := Replace(redacted, order[i]);
      i := i + 1;
    }
  }

  // -------------------------------------------------------------- nothing leaks

  /** A secret that no mask can help to spell: it neither begins nor ends with a bullet and does not
      hold the mask itself.  A secret without any bullet is of this kind. */
  ghost predicate Clean(secret: string) {
    secret != "" && secret[0] != BULLET && secret[|secret| - 1] != BULLET && !Contains(secret, MASK)
  }

  lemma NoBulletIsClean(secret: string)
    requires secret != "" && BULLET !in secret
    ensures Clean(secret)
  {
    forall i | 0 <= i <= |secret| - 4 ensures !At(secret, MASK, i) {
      assert secret[i] in secret && secret[i] == secret[i..i + 4][0];
    }
  }

  /** No part of a mask can be the beginning of `word`, of which no end is a bullet. */
  lemma MaskNoPrefix(word: string, rest: string)
    requires word != "" && word[|word| - 1] != BULLET && !Contains(word, MASK)
    ensures !(word <= MASK + rest)
  {
    var text := MASK + rest;
    if |word| <= 4 {
      assert text[|word| - 1] == BULLET;
    } else {
      assert !At(word, MASK, 0) && word[0..4] == [word[0], word[1], word[2], word[3]];
      assert text[0] == text[1] == text[2] == text[3] == BULLET;
    }
  }

  /** Nor can the word begin inside a mask, if it does not begin with a bullet. */
  lemma NotInsideMask(word: string, rest: string, i: int)
    requires word != "" && word[0] != BULLET && 0 <= i < 4
    ensures !At(MASK + rest, word, i)
  {
    var text := MASK + rest;
    if i + |word| <= |text| {
      assert text[i..i + |word|][0] == text[i] == BULLET;
    }
  }

  lemma NotInMask(word: string)
    requires word != "" && word[0] != BULLET
    ensures !Contains(MASK, word)
  {
    assert MASK + "" == MASK;
    forall i | 0 <= i <= 4 - |word| ensures !At(MASK, word, i) {
      NotInsideMask(word, "", i);
    }
  }

  lemma NotInShorter(text: string, word: string)
    requires |word| >= |text| && word != text
    ensures !Contains(text, word)
  {
    forall i | 0 <= i <= |text| - |word| ensures !At(text, word, i) {
      assert text[i..i + |word|] == text;
    }
  }

  /** What the output begins with, the text began with. */
  lemma {:induction false} PrefixKept(text: string, word: string, p: string)
    requires word != "" && p <= Replace(text, word)
    requires p == "" || p[|p| - 1] != BULLET
    requires !Contains(p, MASK)
    ensures p <= text
    decreases |text|
  {
    if p != "" {
      if word <= text {
        MaskNoPrefix(p, Replace(text[|word|..], word));
      } else {
        if Contains(p[1..], MASK) {
          ContainsLater(p, MASK, 1);
        }
        PrefixKept(text[1..], word, p[1..]);
      }
    }
  }

  /** The heart: a clean secret in the output is one that was in the text and was not replaced. */
  lemma {:induction false} OccurrenceKept(text: string, word: string, secret: string, i: int)
    requires word != "" && Clean(secret) && At(Replace(text, word), secret, i)
    ensures Contains(text, secret) && secret != word
    decreases |text|
  {
    var out := Replace(text, word);
    if i == 0 {
      if word <= text {
        MaskNoPrefix(secret, Replace(text[|word|..], word));
      }
      assert secret <= out;
      PrefixKept(text, word, secret);
      assert At(text, secret, 0);
    } else {
      var cut, front := if word <= text then |word| else 1, if word <= text then MASK else [text[0]];
      var after := Replace(text[cut..], word);
      assert out == front + after;
      if word <= text && i < 4 {
        NotInsideMask(secret, after, i);
      } else {
        AtLater(front, after, secret, i);
        OccurrenceKept(text[cut..], word, secret, i - |front|);
        ContainsLater(text, secret, cut);
      }
    }
  }

  /** Masking one secret removes it and brings no other one back. */
  lemma MaskingCreatesNothing(text: string, word: string, secret: string)
    requires word != "" && Clean(secret) && (secret == word || !Contains(text, secret))
    ensures !Contains(Replace(text, word), secret)
  {
    if Contains(Replace(text, word), secret) {
      var i :| 0 <= i <= |Replace(text, word)| && At(Replace(text, word), secret, i);
      OccurrenceKept(text, word, secret, i);
    }
  }

  lemma {:induction false} NothingComesBack(text: string, order: seq<string>, secret: string)
    requires NoneEmpty(order) && Clean(secret) && (secret in order || !Contains(text, secret))
    ensures !Contains(MaskAll(text, order), secret)
    decreases |order|
  {
    if order != [] {
      if secret == order[0] || !Contains(text, secret) {
        MaskingCreatesNothing(text, order[0], secret);
      }
      NothingComesBack(Replace(text, order[0]), order[1..], secret);
    }
  }

  /** Main result: no clean secret is left in the output, whatever the text, and whatever the other
      secrets, clean or not, overlapping or nested. */
  lemma NoSecretLeaks(text: string, secrets: seq<string>, secret: string)
    requires secret in secrets && Clean(secret)
    ensures !Contains(Redacted(text, secrets), secret)
  {
    NothingComesBack(text, Order(secrets), secret);
  }

  /** A text that holds no secret is not touched. */
  lemma {:induction false} UntouchedBy(text: string, order: seq<string>)
    requires NoneEmpty(order) && forall s :: s in order ==> !Contains(text, s)
    ensures MaskAll(text, order) == text
    decreases |order|
  {
    if order != [] {
      assert order[0] in order;
      ReplaceNothing(text, order[0]);
      UntouchedBy(text, order[1..]);
    }
  }

  lemma OtherTextIsKept(text: string, secrets: seq<string>)
    requires forall s :: s in secrets && s != "" ==> !Contains(text, s)
    ensures Redacted(text, secrets) == text
  {
    UntouchedBy(text, Order(secrets));
  }

  // -------------------------------------------------------------- exactly the clean secrets

  // For each way of not being clean, a text in which masking the secret spells it again.

  lemma RevealsFirst(s: string)
    requires s != "" && s[0] == BULLET
    ensures Contains(Replace(s + s[1..], s), s)
  {
    hide Replace;
    var text, tail := s + s[1..], s[1..];
    assert At(text, s, 0) by { assert text[0..|s|] == s; }
    ReplaceFirst(text, s, 0);
    assert text[..0] + MASK == MASK && text[0 + |s|..] == tail;
    TooShort(tail, s);
    ReplaceNothing(tail, s);
    assert s == [BULLET] + tail && MASK + tail == [BULLET, BULLET, BULLET] + s;
    assert At(s, s, 0) by { assert s[0..|s|] == s; }
    AtLater([BULLET, BULLET, BULLET], s, s, 3);
  }

  lemma NoEarlierLast(s: string, j: nat)
    requires j < |s| - 1 && s[0] != BULLET && s[|s| - 1] == BULLET
    ensures !At(s[..|s| - 1] + s, s, j)
  {
    var n := |s| - 1;
    var text := s[..n] + s;
    assert text[j..j + |s|][0] == text[j] == s[j];
    assert text[j..j + |s|][n] == text[j + n] == s[j];
  }

  lemma RevealsLast(s: string)
    requires s != "" && s[0] != BULLET && s[|s| - 1] == BULLET
    ensures Contains(Replace(s[..|s| - 1] + s, s), s)
  {
    hide Replace;
    var n := |s| - 1;
    var text := s[..n] + s;
    forall j | 0 <= j < n ensures !At(text, s, j) {
      NoEarlierLast(s, j);
    }
    assert text[n..n + |s|] == s;
    ReplaceFirst(text, s, n);
    assert text[..n] == s[..n];
    LastSpelled(s, Replace(text[n + |s|..], s));
  }

  lemma LastSpelled(s: string, rest: string)
    requires s != "" && s[|s| - 1] == BULLET
    ensures Contains(s[..|s| - 1] + MASK + rest, s)
  {
    var out := s[..|s| - 1] + MASK + rest;
    assert out[0..|s|] == s;
    assert At(out, s, 0);
  }

  lemma NoEarlierMask(s: string, v: string, m: nat, j: nat)
    requires m + 4 <= |s| && j < m && !At(s, MASK, j) && At(s, MASK, m)
    ensures !At(s[..m] + s + v, s, j)
  {
    var text := s[..m] + s + v;
    assert text[j..j + |s|][m..m + 4] == text[j + m..j + m + 4];
    assert text[j + m..j + m + 4] == s[j..j + 4];
  }

  lemma RevealsInside(s: string, m: nat)
    requires At(s, MASK, m) && forall j :: 0 <= j < m ==> !At(s, MASK, j)
    ensures Contains(Replace(s[..m] + s + s[m + 4..], s), s)
  {
    hide Replace;
    var u, v := s[..m], s[m + 4..];
    var text := u + s + v;
    forall j | 0 <= j < m ensures !At(text, s, j) {
      NoEarlierMask(s, v, m, j);
    }
    assert text[m..m + |s|] == s;
    ReplaceFirst(text, s, m);
    assert text[m + |s|..] == v && text[..m] == u;
    TooShort(v, s);
    ReplaceNothing(v, s);
    assert u + MASK + v == s;
    assert At(s, s, 0) by { assert s[0..|s|] == s; }
  }

  lemma FirstOccurrence(text: string, word: string) returns (m: nat)
    requires Contains(text, word)
    ensures At(text, word, m) && forall j :: 0 <= j < m ==> !At(text, word, j)
  {
    var i :| 0 <= i <= |text| && At(text, word, i);
    m := 0;
    while !At(text, word, m)
      invariant m <= i
      invariant forall j :: 0 <= j < m ==> !At(text, word, j)
      decreases i - m
    {
      m := m + 1;
    }
  }

  ghost predicate NeverLeaks(secret: string) {
    forall text :: !Contains(Redacted(text, [secret]), secret)
  }

  lemma OneSecret(text: string, secret: string)
    requires secret != ""
    ensures Redacted(text, [secret]) == Replace(text, secret)
  {
    var order := Order([secret]);
    assert NonEmpty([secret]) == [secret];
    assert LongestFirst([secret]) == [secret] by { assert LongestFirst([secret][1..]) == []; }
    assert MaskAll(Replace(text, secret), order[1..]) == Replace(text, secret);
  }

  /** Exactly the clean secrets are safe in every text. */
  lemma SafeExactlyWhenClean(secret: string)
    requires secret != ""
    ensures NeverLeaks(secret) <==> Clean(secret)
  {
    if Clean(secret) {
      forall text ensures !Contains(Redacted(text, [secret]), secret) {
        NoSecretLeaks(text, [secret], secret);
      }
    } else {
      var text: string;
      if secret[0] == BULLET {
        text := secret + secret[1..];
        RevealsFirst(secret);
      } else if secret[|secret| - 1] == BULLET {
        text := secret[..|secret| - 1] + secret;
        RevealsLast(secret);
      } else {
        var m := FirstOccurrence(secret, MASK);
        text := secret[..m] + secret + secret[m + 4..];
        RevealsInside(secret, m);
      }
      OneSecret(text, secret);
      assert Contains(Redacted(text, [secret]), secret);
    }
  }

  // -------------------------------------------------------------- why the longest goes first

  lemma NoWordAcross(a: string, c: char, b: string, word: string)
    requires c !in word
    ensures word <= a + [c] + b <==> word <= a
  {
    var text := a + [c] + b;
    assert text[|a|] == c && (|a| < |word| ==> word[|a|] in word);
  }

  /** A character that no secret holds splits the work in two. */
  lemma {:induction false} ReplaceSplits(a: string, c: char, b: string, word: string)
    requires word != "" && c !in word
    ensures Replace(a + [c] + b, word) == Replace(a, word) + [c] + Replace(b, word)
    decreases |a|
  {
    var text := a + [c] + b;
    NoWordAcross(a, c, b, word);
    if a == "" {
      assert text[1..] == b;
    } else {
      var cut, front := if word <= a then |word| else 1, if word <= a then MASK else [a[0]];
      assert text[cut..] == a[cut..] + [c] + b;
      ReplaceSplits(a[cut..], c, b, word);
      var x, y := Replace(a[cut..], word), Replace(b, word);
      assert Replace(text, word) == front + (x + [c] + y);
      assert front + (x + [c] + y) == (front + x) + [c] + y;
    }
  }

  lemma {:induction false} MaskAllSplits(a: string, c: char, b: string, order: seq<string>)
    requires NoneEmpty(order) && forall s :: s in order ==> c !in s
    ensures MaskAll(a + [c] + b, order) == MaskAll(a, order) + [c] + MaskAll(b, order)
    decreases |order|
  {
    if order != [] {
      assert order[0] in order;
      ReplaceSplits(a, c, b, order[0]);
      MaskAllSplits(Replace(a, order[0]), c, Replace(b, order[0]), order[1..]);
    }
  }

  /** Longer secrets cannot occur in a shorter one, which is therefore masked as a whole, and no
      later, shorter secret occurs in the mask. */
  lemma {:induction false} WholeSecret(secret: string, order: seq<string>)
    requires LongestBeforeShortest(order) && NoneEmpty(order)
    requires secret in order && forall s :: s in order ==> Clean(s)
    ensures MaskAll(secret, order) == MASK
    decreases |order|
  {
    assert order[0] in order && Clean(order[0]);
    if order[0] == secret {
      assert secret[|secret|..] == "";
      assert Replace(secret, secret) == MASK;
      forall s | s in order[1..] ensures !Contains(MASK, s) {
        assert Clean(s);
        NotInMask(s);
      }
      UntouchedBy(MASK, order[1..]);
    } else {
      var k :| 0 < k < |order| && order[k] == secret;
      assert |order[0]| >= |order[k]|;
      NotInShorter(secret, order[0]);
      ReplaceNothing(secret, order[0]);
      WholeSecret(secret, order[1..]);
    }
  }

  /** A secret between two characters that belong to no secret is masked as a whole, even if shorter
      secrets are nested in it; what stands around it is redacted on its own. */
  lemma DelimitedSecretIsMasked(a: string, c: char, secret: string, d: char, b: string, secrets: seq<string>)
    requires secret in secrets && forall s :: s in secrets && s != "" ==> Clean(s) && c !in s && d !in s
    requires secret != ""
    ensures Redacted(a + [c] + (secret + [d] + b), secrets) ==
            Redacted(a, secrets) + [c] + ("\U{2022}\U{2022}\U{2022}\U{2022}" + [d] + Redacted(b, secrets))
  {
    assert MASK == "\U{2022}\U{2022}\U{2022}\U{2022}";
    var order := Order(secrets);
    MaskAllSplits(a, c, secret + [d] + b, order);
    MaskAllSplits(secret, d, b, order);
    WholeSecret(secret, order);
  }
}
