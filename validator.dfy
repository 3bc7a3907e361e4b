/** The chat message validator (chat_main/validator/processor.py). It strips
    the text, rejects it when it is empty, sanitises a text with a character
    outside the allow-list, and censors every ban-word occurrence of the
    lowered text with `*`, position for position. The Aho-Corasick automaton
    is modelled by its key list and a plain search for every occurrence of
    every key. */
module Validator {
  import opened Common

  const EmptyReason: string := "Пустое сообщение"
  const CharsetReason: string := "Недопустимые символы"
  const BanPrefix: string := "Найдены ban-слова. Цензура: "
  const NotRequired: string := "not required"

  /** The `(is_valid, reason, replacement)` triple of `validate_message`. */
  datatype Verdict = Verdict(valid: bool, reason: string, replacement: string)

  /** `ValidateResult` (lines 17-21). */
  datatype ValidateResult = ValidateResult(isValid: bool, reason: string, newMessage: string)

  /** `\w`: letters and digits of the Latin alphabet, the Cyrillic block
      without its thousands sign and combining marks (U+0482-U+0489), and `_`. */
  predicate IsWordChar(c: char) {
    ('a' <= c <= 'z') || ('A' <= c <= 'Z') || ('0' <= c <= '9') || c == '_' ||
    ('Ѐ' <= c <= 'ӿ' && !('\U{0482}' <= c <= '\U{0489}'))
  }

  /** The punctuation the two character classes of lines 12 and 14 list. */
  const Punctuation: string := "-.,!?()[]{}@#$%^&*:;\"'/\\"

  /** A member of the class of line 12; line 14's class is its complement. */
  predicate Allowed(c: char) {
    IsWordChar(c) || IsSpace(c) || c in Punctuation
  }

  predicate AllAllowed(s: string) {
    forall k :: 0 <= k < |s| ==> Allowed(s[k])
  }

  /** `DISALLOWED_RE.sub(" ", text)`: each disallowed character becomes one space. */
  function Sanitize(s: string): (r: string)
    ensures |r| == |s| && AllAllowed(r)
    ensures forall k :: 0 <= k < |s| ==> (Allowed(s[k]) ==> r[k] == s[k]) && (!Allowed(s[k]) ==> r[k] == ' ')
  {
    seq(|s|, k requires 0 <= k < |s| => if Allowed(s[k]) then s[k] else ' ')
  }

  /** The two regular expressions agree: sanitising changes a text exactly
      when the first one rejects it. */
  lemma SanitizeFixesExactlyAllowed(s: string)
    ensures Sanitize(s) == s <==> AllAllowed(s)
  {
    if !AllAllowed(s) {
      var k :| 0 <= k < |s| && !Allowed(s[k]);
      assert Sanitize(s)[k] != s[k];
    }
  }

  /** `str.lower` on the characters the allow-list admits: A-Z, and the
      Cyrillic block as Unicode lowers it (U+0400-U+040F by 0x50,
      U+0410-U+042F by 0x20, U+04C0 to U+04CF, and the capital/small pairs
      of U+0460-U+0481, U+048A-U+04BF and U+04C1-U+04FF by one). Every other
      character is kept. */
  function LowerChar(c: char): (r: char)
    ensures Allowed(c) ==> Allowed(r)
    ensures !('A' <= r <= 'Z') && !('\U{0400}' <= r <= '\U{042F}')
    ensures '\U{0430}' <= c <= '\U{045F}' ==> r == c
  {
    if 'A' <= c <= 'Z' then (c as int + 32) as char
    else if '\U{0410}' <= c <= '\U{042F}' then (c as int + 32) as char
    else if '\U{0400}' <= c <= '\U{040F}' then (c as int + 80) as char
    else if c == '\U{04C0}' then '\U{04CF}'
    else if ('\U{0460}' <= c <= '\U{0481}' || '\U{048A}' <= c <= '\U{04BF}' || '\U{04D0}' <= c <= '\U{04FF}') && c as int % 2 == 0 then
      (c as int + 1) as char
    else if '\U{04C1}' <= c <= '\U{04CE}' && c as int % 2 == 1 then (c as int + 1) as char
    else c
  }

  function Lower(s: string): (r: string)
    ensures |r| == |s|
    ensures forall k :: 0 <= k < |s| ==> r[k] == LowerChar(s[k])
  {
    seq(|s|, k requires 0 <= k < |s| => LowerChar(s[k]))
  }

  /** Lowering an already lowered text changes nothing, as with `str.lower`. */
  lemma LowerIdempotent(s: string)
    ensures Lower(Lower(s)) == Lower(s)
  {
  }

  predicate OccursAt(s: string, w: string, p: nat) {
    p + |w| <= |s| && s[p..p + |w|] == w
  }

  /** Some non-empty key occurs in `s`. */
  ghost predicate HasBanWord(s: string, words: seq<string>) {
    exists w, p: nat :: w in words && w != [] && OccursAt(s, w, p)
  }

  /** Position `k` lies inside an occurrence of a non-empty key. */
  ghost predicate Covered(s: string, words: seq<string>, k: int) {
    exists w, p: nat :: w in words && w != [] && OccursAt(s, w, p) && p <= k < p + |w|
  }

  /** One `(i, found)` the automaton yields: `found` ends at index `i`. */
  datatype Match = Match(end: nat, word: string)

  predicate Spans(m: Match, k: int) {
    m.end + 1 - |m.word| <= k <= m.end
  }

  predicate CoveredBy(found: seq<Match>, k: int) {
    exists m :: m in found && Spans(m, k)
  }

  /** `m` is an occurrence of a non-empty key of `words` in `s`. */
  predicate Sound(s: string, words: seq<string>, m: Match) {
    m.word in words && m.word != [] && |m.word| <= m.end + 1 && OccursAt(s, m.word, m.end + 1 - |m.word|)
  }

  /** The occurrences of keys of `words` that start at `p`, in key order. */
  function MatchesAt(s: string, words: seq<string>, p: nat): seq<Match> {
    if words == [] then []
    else
      var w := words[0];
      (if w != [] && OccursAt(s, w, p) then [Match(p + |w| - 1, w)] else []) + MatchesAt(s, words[1..], p)
  }

  /** Every occurrence that starts at `p` or later, by start position. */
  function MatchesFrom(s: string, words: seq<string>, p: nat): seq<Match>
    decreases |s| - p
  {
    if p >= |s| then [] else MatchesAt(s, words, p) + MatchesFrom(s, words, p + 1)
  }

  /** `A.iter(lowered)`: all occurrences of all keys. */
  function Matches(s: string, words: seq<string>): seq<Match> {
    MatchesFrom(s, words, 0)
  }

  lemma {:induction false} MatchesAtSound(s: string, words: seq<string>, p: nat, m: Match)
    requires m in MatchesAt(s, words, p)
    ensures Sound(s, words, m) && m.end + 1 - |m.word| == p
  {
    var w := words[0];
    if w != [] && OccursAt(s, w, p) && m == Match(p + |w| - 1, w) {
    } else {
      MatchesAtSound(s, words[1..], p, m);
    }
  }

  lemma {:induction false} MatchesAtComplete(s: string, words: seq<string>, p: nat, w: string)
    requires w in words && w != [] && OccursAt(s, w, p)
    ensures Match(p + |w| - 1, w) in MatchesAt(s, words, p)
  {
    if words[0] != w {
      MatchesAtComplete(s, words[1..], p, w);
    }
  }

  lemma {:induction false} MatchesFromSound(s: string, words: seq<string>, p: nat, m: Match)
    requires m in MatchesFrom(s, words, p)
    decreases |s| - p
    ensures Sound(s, words, m) && p <= m.end + 1 - |m.word|
  {
    if m in MatchesAt(s, words, p) {
      MatchesAtSound(s, words, p, m);
    } else {
      MatchesFromSound(s, words, p + 1, m);
    }
  }

  lemma {:induction false} MatchesFromComplete(s: string, words: seq<string>, p: nat, w: string, q: nat)
    requires p <= q && w in words && w != [] && OccursAt(s, w, q)
    decreases |s| - p
    ensures Match(q + |w| - 1, w) in MatchesFrom(s, words, p)
  {
    if q == p {
      MatchesAtComplete(s, words, p, w);
    } else {
      MatchesFromComplete(s, words, p + 1, w, q);
    }
  }

  lemma MatchesSound(s: string, words: seq<string>)
    ensures forall m :: m in Matches(s, words) ==> Sound(s, words, m)
  {
    forall m | m in Matches(s, words) ensures Sound(s, words, m) {
      MatchesFromSound(s, words, 0, m);
    }
  }

  lemma MatchesFindBanWord(s: string, words: seq<string>)
    ensures Matches(s, words) != [] <==> HasBanWord(s, words)
  {
    var found := Matches(s, words);
    if found != [] {
      var m := found[0];
      MatchesFromSound(s, words, 0, m);
      assert OccursAt(s, m.word, m.end + 1 - |m.word|);
    }
    if HasBanWord(s, words) {
      var w, p: nat :| w in words && w != [] && OccursAt(s, w, p);
      MatchesFromComplete(s, words, 0, w, p);
    }
  }

  lemma CoveredByIsCovered(s: string, words: seq<string>, k: int)
    requires CoveredBy(Matches(s, words), k)
    ensures Covered(s, words, k)
  {
    var m :| m in Matches(s, words) && Spans(m, k);
    MatchesFromSound(s, words, 0, m);
    var p: nat := m.end + 1 - |m.word|;
    assert m.word in words && m.word != [] && OccursAt(s, m.word, p) && p <= k < p + |m.word|;
  }

  lemma CoveredIsCoveredBy(s: string, words: seq<string>, k: int)
    requires Covered(s, words, k)
    ensures CoveredBy(Matches(s, words), k)
  {
    var w, p: nat :| w in words && w != [] && OccursAt(s, w, p) && p <= k < p + |w|;
    MatchesFromComplete(s, words, 0, w, p);
    assert Spans(Match(p + |w| - 1, w), k);
  }

  /** The search finds occurrences only, all of them, and finds one exactly
      when some key occurs; so the positions it covers are the covered ones. */
  lemma MatchesAreComplete(s: string, words: seq<string>)
    ensures forall m :: m in Matches(s, words) ==> Sound(s, words, m)
    ensures Matches(s, words) != [] <==> HasBanWord(s, words)
    ensures forall k :: CoveredBy(Matches(s, words), k) <==> Covered(s, words, k)
  {
    MatchesSound(s, words);
    MatchesFindBanWord(s, words);
    forall k ensures CoveredBy(Matches(s, words), k) <==> Covered(s, words, k) {
      if CoveredBy(Matches(s, words), k) {
        CoveredByIsCovered(s, words, k);
      }
      if Covered(s, words, k) {
        CoveredIsCoveredBy(s, words, k);
      }
    }
  }

  /** The text after the loop of lines 56-58. */
  function Censored(text: string, found: seq<Match>): (r: string)
    ensures |r| == |text|
    ensures forall k :: 0 <= k < |text| ==> r[k] == if CoveredBy(found, k) then '*' else text[k]
  {
    seq(|text|, k requires 0 <= k < |text| => if CoveredBy(found, k) then '*' else text[k])
  }

  /** Lines 54-58: `list(text)`, and for each match its slice overwritten by
      as many `*` as it is long. */
  method Censor(text: string, found: seq<Match>) returns (r: string)
    requires forall m :: m in found ==> |m.word| <= m.end + 1 && m.end < |text|
    ensures r == Censored(text, found)
  {
    var buf := new char[|text|](k requires 0 <= k < |text| => text[k]);
    var i := 0;
    while i < |found|
      invariant 0 <= i <= |found|
      invariant forall k :: 0 <= k < buf.Length ==> buf[k] == if CoveredBy(found[..i], k) then '*' else text[k]
    {
      var m := found[i];
      assert m in found;
      var j := m.end + 1 - |m.word|;
      while j < m.end + 1
        invariant m.end + 1 - |m.word| <= j <= m.end + 1
        invariant forall k :: 0 <= k < buf.Length ==>
          buf[k] == if CoveredBy(found[..i], k) || (m.end + 1 - |m.word| <= k < j) then '*' else text[k]
      {
        buf[j] := '*';
        j := j + 1;
      }
      assert found[..i + 1] == found[..i] + [m];
      assert forall k :: CoveredBy(found[..i + 1], k) <==> CoveredBy(found[..i], k) || Spans(m, k);
      i := i + 1;
    }
    assert found[..i] == found;
    r := buf[..];
  }

  /** `validate_message` (lines 42-63). */
  function Validation(text: string, words: seq<string>): (r: Verdict)
    ensures Trim(text) == [] ==> r == Verdict(false, EmptyReason, " ")
    ensures Trim(text) != [] && !AllAllowed(Trim(text)) ==> r == Verdict(false, CharsetReason, Sanitize(Trim(text)))
    ensures r.valid <==> Trim(text) != [] && AllAllowed(Trim(text)) && !HasBanWord(Lower(Trim(text)), words)
    ensures r.valid ==> r == Verdict(true, "OK", "-")
    ensures Trim(text) != [] && AllAllowed(Trim(text)) && HasBanWord(Lower(Trim(text)), words) ==>
      r.reason == BanPrefix + r.replacement && |r.replacement| == |Trim(text)| &&
      forall k :: 0 <= k < |Trim(text)| ==>
        r.replacement[k] == if Covered(Lower(Trim(text)), words, k) then '*' else Trim(text)[k]
  {
    var t := Trim(text);
    if t == [] then Verdict(false, EmptyReason, " ")
    else if !AllAllowed(t) then Verdict(false, CharsetReason, Sanitize(t))
    else
      var found := Matches(Lower(t), words);
      MatchesAreComplete(Lower(t), words);
      if found == [] then Verdict(true, "OK", "-")
      else
        var c := Censored(t, found);
        Verdict(false, BanPrefix + c, c)
  }

  /** `validate_message` step by step, censoring in a buffer. */
  method Validate(text: string, words: seq<string>) returns (r: Verdict)
    ensures r == Validation(text, words)
  {
    var t := Trim(text);
    if t == [] {
      return Verdict(false, EmptyReason, " ");
    }
    if !AllAllowed(t) {
      return Verdict(false, CharsetReason, Sanitize(t));
    }
    var lowered := Lower(t);
    var found := Matches(lowered, words);
    if found == [] {
      return Verdict(true, "OK", "-");
    }
    MatchesAreComplete(lowered, words);
    var c := Censor(t, found);
    r := Verdict(false, BanPrefix + c, c);
  }

  /** Stripping first makes the verdict blind to surrounding whitespace. */
  lemma ValidationIgnoresSurroundingSpace(text: string, words: seq<string>)
    ensures Validation(Trim(text), words) == Validation(text, words)
  {
    TrimIdempotent(text);
  }

  lemma TrimKeepsAllowed(s: string)
    requires AllAllowed(s)
    ensures AllAllowed(Trim(s))
  {
    SliceKeepsAllowed(s, Lead(s), Lead(s) + |Trim(s)|);
  }

  lemma SliceKeepsAllowed(s: string, a: nat, b: nat)
    requires AllAllowed(s) && a <= b <= |s|
    ensures AllAllowed(s[a..b])
  {
    forall k | 0 <= k < b - a ensures Allowed(s[a..b][k]) {
      assert s[a..b][k] == s[a + k];
    }
  }

  /** Any replacement the validator proposes passes its character check. */
  lemma ReplacementPassesCharset(text: string, words: seq<string>)
    ensures Validation(Validation(text, words).replacement, words).reason != CharsetReason
  {
    var r := Validation(text, words);
    var t := Trim(text);
    if t != [] && AllAllowed(t) && HasBanWord(Lower(t), words) {
      forall k | 0 <= k < |r.replacement| ensures Allowed(r.replacement[k]) {
        assert Allowed(t[k]);
        assert '*' in Punctuation;
      }
    }
    assert ' ' in " ";
    assert AllAllowed(r.replacement);
    TrimKeepsAllowed(r.replacement);
  }

  /** `process_message` (lines 67-74): the validator's replacement travels only when the text is rejected. */
  function ProcessMessage(text: string, words: seq<string>): (r: ValidateResult)
    ensures r.isValid == Validation(text, words).valid && r.reason == Validation(text, words).reason
    ensures r.isValid ==> r.newMessage == NotRequired && r.reason == "OK"
    ensures !r.isValid ==> r.newMessage == Validation(text, words).replacement
  {
    var v := Validation(text, words);
    if !v.valid then ValidateResult(v.valid, v.reason, v.replacement) else ValidateResult(v.valid, v.reason, NotRequired)
  }

  /** The ban list of lines 34-37: one stripped entry per line. */
  method LoadBanWords(lines: seq<string>) returns (words: seq<string>)
    ensures |words| == |lines| && forall i :: 0 <= i < |lines| ==> words[i] == Trim(lines[i])
  {
    words := [];
    var i := 0;
    while i < |lines|
      invariant 0 <= i <= |lines| && |words| == i
      invariant forall j :: 0 <= j < i ==> words[j] == Trim(lines[j])
    {
      words := words + [Trim(lines[i])];
      i := i + 1;
    }
  }

  /** `build_automaton` (lines 25-30): the automaton's keys, each once, in
      insertion order; an empty key, which can match nothing, is not kept. */
  method BuildAutomaton(words: seq<string>) returns (keys: seq<string>)
    ensures NoDup(keys)
    ensures forall w :: w in keys <==> w in words && w != []
  {
    keys := [];
    var i := 0;
    while i < |words|
      invariant 0 <= i <= |words| && NoDup(keys)
      invariant forall w :: w in keys <==> w in words[..i] && w != []
    {
      assert words[..i + 1] == words[..i] + [words[i]];
      if words[i] != [] && words[i] !in keys {
        keys := keys + [words[i]];
      }
      i := i + 1;
    }
    assert words[..i] == words;
  }
}
