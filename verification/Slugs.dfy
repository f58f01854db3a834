/**
 Slugs (src/common/utils/slugify.util.ts) as a normal form of names, and the search for a free
 slug that both marketplace catalogues share (src/modules/marketplace).
 */
module Slugs {
  import opened Text

  // ---- The transformation ----------------------------------------------------------------

  predicate Alnum(c: char) {
    'a' <= c <= 'z' || '0' <= c <= '9'
  }

  /**
   `toLowerCase` as far as it matters here: besides A to Z, the Kelvin sign and the dotted
   capital I are the only characters whose lower case contains a letter from a to z. What the
   others become is a character outside a-z and 0-9 either way.
   */
  function LowerChar(c: char): string {
    if 'A' <= c <= 'Z' then [c + 32 as char]
    else if c == '\U{212A}' then "k"
    else if c == '\U{0130}' then ['i', '\U{0307}']
    else [c]
  }

  function Lower(s: string): string {
    if s == "" then "" else LowerChar(s[0]) + Lower(s[1..])
  }

  /** White space and line terminators, sections 12.2 and 12.3 of ECMA-262. */
  predicate IsSpace(c: char) {
    '\U{0009}' <= c <= '\U{000D}' || c == ' ' || c == '\U{00A0}' || c == '\U{1680}' || '\U{2000}' <= c <= '\U{200A}'
    || c == '\U{2028}' || c == '\U{2029}' || c == '\U{202F}' || c == '\U{205F}' || c == '\U{3000}' || c == '\U{FEFF}'
  }

  function DropLeading(s: string, drop: char -> bool): string {
    if s != "" && drop(s[0]) then DropLeading(s[1..], drop) else s
  }

  function DropTrailing(s: string, drop: char -> bool): string {
    if s != "" && drop(s[|s| - 1]) then DropTrailing(s[..|s| - 1], drop) else s
  }

  function Trim(s: string): string {
    DropTrailing(DropLeading(s, IsSpace), IsSpace)
  }

  /** Replaces each maximal run of other characters by one hyphen. */
  function Hyphenate(s: string): string
    decreases |s|
  {
    if s == "" then ""
    else if Alnum(s[0]) then [s[0]] + Hyphenate(s[1..])
    else "-" + Hyphenate(SkipJunk(s[1..]))
  }

  function SkipJunk(s: string): (r: string)
    ensures |r| <= |s|
  {
    if s != "" && !Alnum(s[0]) then SkipJunk(s[1..]) else s
  }

  predicate IsHyphen(c: char) {
    c == '-'
  }

  function Slugify(value: string): string {
    DropTrailing(DropLeading(Hyphenate(Trim(Lower(value))), IsHyphen), IsHyphen)
  }

  // ---- What a slug is ---------------------------------------------------------------------

  predicate IsWord(w: string) {
    w != "" && forall i :: 0 <= i < |w| ==> Alnum(w[i])
  }

  predicate AreWords(words: seq<string>) {
    forall k :: 0 <= k < |words| ==> IsWord(words[k])
  }

  function RunLength(s: string): (n: nat)
    ensures n <= |s| && (forall i :: 0 <= i < n ==> Alnum(s[i])) && (n < |s| ==> !Alnum(s[n]))
  {
    if s != "" && Alnum(s[0]) then 1 + RunLength(s[1..]) else 0
  }

  /** The maximal runs of letters and digits, in order. */
  function Words(s: string): (words: seq<string>)
    ensures AreWords(words)
    decreases |s|
  {
    if s == "" then []
    else if !Alnum(s[0]) then Words(s[1..])
    else [s[..RunLength(s)]] + Words(s[RunLength(s)..])
  }

  /** Lower-case letters and digits, with single hyphens strictly inside. */
  predicate IsSlug(t: string) {
    forall i :: 0 <= i < |t| ==> SlugAt(t, i)
  }

  predicate SlugAt(t: string, i: nat)
    requires i < |t|
  {
    Alnum(t[i]) || (t[i] == '-' && 0 < i < |t| - 1 && t[i - 1] != '-')
  }

  // ---- Words survive each stage --------------------------------------------------------------

  lemma {:induction false} WordsSkipJunk(s: string)
    ensures Words(SkipJunk(s)) == Words(s)
    ensures SkipJunk(s) != "" ==> Alnum(SkipJunk(s)[0])
  {
    if s != "" && !Alnum(s[0]) {
      WordsSkipJunk(s[1..]);
    }
  }

  lemma {:induction false} RunLengthKeeps(s: string, c: char)
    requires !Alnum(c)
    ensures RunLength(s + [c]) == RunLength(s)
  {
    if s != "" {
      assert (s + [c])[1..] == s[1..] + [c];
      RunLengthKeeps(s[1..], c);
    }
  }

  lemma {:induction false} WordsIgnoreLast(s: string, c: char)
    requires !Alnum(c)
    ensures Words(s + [c]) == Words(s)
    decreases |s|
  {
    if s == "" {
      assert s + [c] == [c] && [c][1..] == "";
    } else {
      var n := RunLength(s);
      RunLengthKeeps(s, c);
      assert (s + [c])[1..] == s[1..] + [c];
      assert (s + [c])[..n] == s[..n] && (s + [c])[n..] == s[n..] + [c];
      if Alnum(s[0]) {
        WordsIgnoreLast(s[n..], c);
      } else {
        WordsIgnoreLast(s[1..], c);
      }
    }
  }

  lemma {:induction false} WordsDropLeading(s: string, drop: char -> bool)
    requires forall c :: drop(c) ==> !Alnum(c)
    ensures Words(DropLeading(s, drop)) == Words(s)
  {
    if s != "" && drop(s[0]) {
      WordsDropLeading(s[1..], drop);
    }
  }

  lemma {:induction false} WordsDropTrailing(s: string, drop: char -> bool)
    requires forall c :: drop(c) ==> !Alnum(c)
    ensures Words(DropTrailing(s, drop)) == Words(s)
  {
    if s != "" && drop(s[|s| - 1]) {
      var init := s[..|s| - 1];
      assert s == init + [s[|s| - 1]];
      WordsIgnoreLast(init, s[|s| - 1]);
      WordsDropTrailing(init, drop);
    }
  }

  lemma Associate(a: string, b: string, c: string)
    ensures a + (b + c) == a + b + c
  {
  }

  lemma {:induction false} HyphenateRun(s: string)
    ensures Hyphenate(s) == s[..RunLength(s)] + Hyphenate(s[RunLength(s)..])
  {
    var n := RunLength(s);
    if n > 0 {
      var head, tail := [s[0]], s[1..];
      HyphenateRun(tail);
      assert s[..n] == head + tail[..n - 1];
      assert s[n..] == tail[n - 1..];
      Associate(head, tail[..n - 1], Hyphenate(s[n..]));
    } else {
      assert s[..n] == "" && s[n..] == s;
    }
  }

  predicate AtMostAHyphen(edge: string) {
    edge == "" || edge == "-"
  }

  lemma HyphenateRunOnly(s: string)
    requires s != "" && Alnum(s[0]) && RunLength(s) == |s|
    ensures Words(s) == [s] && Hyphenate(s) == s
  {
    HyphenateRun(s);
    assert s[..|s|] == s && s[|s|..] == "";
  }

  lemma HyphenateRunThenJunk(s: string, next: string)
    requires s != "" && Alnum(s[0]) && RunLength(s) < |s| && next == SkipJunk(s[RunLength(s) + 1..])
    ensures Words(s) == [s[..RunLength(s)]] + Words(next)
    ensures Hyphenate(s) == s[..RunLength(s)] + ("-" + Hyphenate(next))
  {
    var rest := s[RunLength(s)..];
    HyphenateRun(s);
    assert rest[1..] == s[RunLength(s) + 1..];
    WordsSkipJunk(rest[1..]);
    assert Words(rest) == Words(next);
    assert Hyphenate(rest) == "-" + Hyphenate(next);
  }

  lemma Reassociate(a: string, b: string, c: string, d: string)
    ensures a + (b + (c + d)) == a + b + c + d
  {
  }

  lemma JoinedOneMore(run: string, words: seq<string>, edge: string)
    requires words != []
    ensures run + ("-" + (Join(words, "-") + edge)) == Join([run] + words, "-") + edge
  {
    JoinStep(run, words, "-");
    Reassociate(run, "-", Join(words, "-"), edge);
  }

  /** From a letter or digit on, the result is the words joined, then perhaps one hyphen. */
  lemma {:induction false} HyphenateFromWord(s: string) returns (edge: string)
    requires s != "" && Alnum(s[0])
    ensures Words(s) != [] && AtMostAHyphen(edge) && Hyphenate(s) == Join(Words(s), "-") + edge
    decreases |s|
  {
    if RunLength(s) == |s| {
      edge := "";
      HyphenateRunOnly(s);
    } else {
      var run, next := s[..RunLength(s)], SkipJunk(s[RunLength(s) + 1..]);
      WordsSkipJunk(s[RunLength(s) + 1..]);
      HyphenateRunThenJunk(s, next);
      if next == "" {
        edge := "-";
        assert Words(s) == [run];
      } else {
        edge := HyphenateFromWord(next);
        JoinedOneMore(run, Words(next), edge);
      }
    }
  }

  lemma HyphenateJoinsWords(s: string) returns (left: string, right: string)
    ensures AtMostAHyphen(left) && AtMostAHyphen(right)
    ensures Hyphenate(s) == left + Join(Words(s), "-") + right
  {
    var start := SkipJunk(s);
    WordsSkipJunk(s);
    if start == "" {
      left, right := Hyphenate(s), "";
    } else {
      right := HyphenateFromWord(start);
      left := if Alnum(s[0]) then "" else "-";
      assert "" + Join(Words(s), "-") + right == Join(Words(s), "-") + right;
      assert "-" + (Join(Words(s), "-") + right) == "-" + Join(Words(s), "-") + right;
    }
  }

  // ---- Slugs are words joined by hyphens ---------------------------------------------------------

  lemma {:induction false} JoinedWordsAreASlug(words: seq<string>)
    requires AreWords(words)
    ensures IsSlug(Join(words, "-")) && (words != [] ==> Join(words, "-") != "")
  {
    if |words| > 1 {
      var w, rest := words[0], Join(words[1..], "-");
      JoinedWordsAreASlug(words[1..]);
      var t := w + "-" + rest;
      forall i | 0 <= i < |t|
        ensures SlugAt(t, i)
      {
        if i <= |w| {
          assert IsWord(w) && (i > 0 ==> Alnum(w[i - 1]));
        } else {
          assert t[i] == rest[i - |w| - 1] && SlugAt(rest, i - |w| - 1);
        }
      }
    } else if |words| == 1 {
      assert IsWord(words[0]);
    }
  }

  lemma SlugAfterHyphen(t: string, n: nat)
    requires IsSlug(t) && 0 < n < |t| && !Alnum(t[n])
    ensures n + 1 < |t| && IsSlug(t[n + 1..]) && t == t[..n] + "-" + t[n + 1..]
  {
    assert SlugAt(t, n);
    assert SlugAt(t, n + 1);
    var rest := t[n + 1..];
    forall i | 0 <= i < |rest| ensures SlugAt(rest, i) {
      assert SlugAt(t, n + 1 + i) && rest[i] == t[n + 1 + i];
    }
  }

  lemma WordsStep(t: string, n: nat)
    requires n == RunLength(t) && 0 < n < |t|
    ensures Words(t) == [t[..n]] + Words(t[n + 1..])
  {
    assert Words(t) == [t[..n]] + Words(t[n..]);
    assert t[n..][1..] == t[n + 1..];
  }

  /** The words of a slug are what its hyphens separate. */
  lemma {:induction false} SlugIsItsWords(t: string)
    requires IsSlug(t)
    ensures Join(Words(t), "-") == t && (t != "" ==> Words(t) != [])
    decreases |t|
  {
    if t != "" {
      var n := RunLength(t);
      assert SlugAt(t, 0);
      if n < |t| {
        SlugAfterHyphen(t, n);
        WordsStep(t, n);
        SlugIsItsWords(t[n + 1..]);
        JoinStep(t[..n], Words(t[n + 1..]), "-");
      } else {
        HyphenateRunOnly(t);
      }
    }
  }

  /** Words joined by hyphens are read off again. */
  lemma {:induction false} WordsOfJoined(words: seq<string>)
    requires AreWords(words)
    ensures Words(Join(words, "-")) == words
    decreases |words|
  {
    if words != [] {
      var w, rest := words[0], words[1..];
      assert IsWord(w);
      var t := Join(words, "-");
      if rest == [] {
        RunOfWord(w, "");
        assert w + "" == w;
      } else {
        var tail := Join(rest, "-");
        WordsOfJoined(rest);
        RunOfWord(w, "-" + tail);
        assert t == w + ("-" + tail) && t[|w|..] == "-" + tail && ("-" + tail)[1..] == tail;
      }
    }
  }

  lemma {:induction false} RunOfWord(w: string, rest: string)
    requires forall i :: 0 <= i < |w| ==> Alnum(w[i])
    requires rest != "" ==> !Alnum(rest[0])
    ensures RunLength(w + rest) == |w|
  {
    if w == "" {
      assert w + rest == rest;
    } else {
      assert (w + rest)[1..] == w[1..] + rest;
      RunOfWord(w[1..], rest);
    }
  }

  lemma StripLeft(left: string, text: string)
    requires AtMostAHyphen(left) && (text != "" ==> text[0] != '-')
    ensures DropLeading(left + text, IsHyphen) == text
  {
    if left == "" {
      assert left + text == text;
    } else {
      assert (left + text)[1..] == text;
    }
  }

  lemma StripRight(text: string, right: string)
    requires AtMostAHyphen(right) && (text != "" ==> text[|text| - 1] != '-')
    ensures DropTrailing(text + right, IsHyphen) == text
  {
    if right == "" {
      assert text + right == text;
    } else {
      assert (text + right)[..|text|] == text;
    }
  }

  lemma StripEdges(left: string, slug: string, right: string)
    requires AtMostAHyphen(left) && AtMostAHyphen(right) && IsSlug(slug)
    ensures DropTrailing(DropLeading(left + slug + right, IsHyphen), IsHyphen) == slug
  {
    if slug == "" {
      assert left + slug + right == left + right;
      if right == "" {
        assert left + right == left + "";
        StripLeft(left, "");
      } else if left == "" {
        assert left + right == "-" + "";
        StripLeft("-", "");
      } else {
        assert left + right == "-" + "-" && ("-" + "-")[1..] == "-";
        StripLeft("-", "");
        assert "-" + "" == "-";
      }
    } else {
      assert SlugAt(slug, 0) && SlugAt(slug, |slug| - 1);
      assert left + slug + right == left + (slug + right);
      StripLeft(left, slug + right);
      StripRight(slug, right);
    }
  }

  // ---- Main results about slugify -------------------------------------------------------------------

  /** The slug of a name is the words of the lower-cased name joined by single hyphens. */
  lemma SlugifyJoinsWords(value: string)
    ensures Slugify(value) == Join(Words(Lower(value)), "-") && IsSlug(Slugify(value))
  {
    var lower := Lower(value);
    WordsDropLeading(lower, IsSpace);
    WordsDropTrailing(DropLeading(lower, IsSpace), IsSpace);
    var left, right := HyphenateJoinsWords(Trim(lower));
    JoinedWordsAreASlug(Words(lower));
    StripEdges(left, Join(Words(lower), "-"), right);
  }

  lemma {:induction false} LowerKeepsSlugs(t: string)
    requires forall c :: c in t ==> Alnum(c) || c == '-'
    ensures Lower(t) == t
  {
    if t != "" {
      LowerKeepsSlugs(t[1..]);
      assert t[0] in t;
    }
  }

  /** Slugify leaves exactly the slugs alone, so they are its image and it is idempotent. */
  lemma SlugsAreTheFixedPoints(t: string)
    ensures IsSlug(t) <==> Slugify(t) == t
    ensures Slugify(Slugify(t)) == Slugify(t)
  {
    SlugifyJoinsWords(t);
    FixedIfSlug(t);
    FixedIfSlug(Slugify(t));
  }

  lemma FixedIfSlug(t: string)
    ensures IsSlug(t) ==> Slugify(t) == t
  {
    if IsSlug(t) {
      forall c | c in t ensures Alnum(c) || c == '-' {
        var i :| 0 <= i < |t| && t[i] == c;
        assert SlugAt(t, i);
      }
      LowerKeepsSlugs(t);
      SlugifyJoinsWords(t);
      SlugIsItsWords(t);
    }
  }

  /** Two names share a slug exactly when they have the same words up to case. */
  lemma SameSlugSameWords(a: string, b: string)
    ensures Slugify(a) == Slugify(b) <==> Words(Lower(a)) == Words(Lower(b))
  {
    SlugifyJoinsWords(a);
    SlugifyJoinsWords(b);
    WordsOfJoined(Words(Lower(a)));
    WordsOfJoined(Words(Lower(b)));
  }

  // ---- Lower case and white space -----------------------------------------------------------------

  predicate IsAscii(s: string) {
    forall i :: 0 <= i < |s| ==> s[i] < '\U{0080}'
  }

  /** On ASCII text lower-casing moves the letters from A to Z by 32 places and nothing else. */
  lemma {:induction false} LowerByPlace(s: string, i: nat)
    requires IsAscii(s) && i < |s|
    ensures |Lower(s)| == |s|
    ensures Lower(s)[i] as int == if 'A' <= s[i] <= 'Z' then s[i] as int + 32 else s[i] as int
  {
    assert s[0] < '\U{0080}';
    var rest := s[1..];
    forall k | 0 <= k < |rest| ensures rest[k] < '\U{0080}' {
      assert rest[k] == s[k + 1];
    }
    if rest != "" {
      LowerByPlace(rest, if i > 0 then i - 1 else 0);
    }
  }

  /** No text keeps a capital. */
  lemma {:induction false} LowerLeavesNoCapital(s: string, i: nat)
    requires i < |Lower(s)|
    ensures !('A' <= Lower(s)[i] <= 'Z')
  {
    var head := LowerChar(s[0]);
    if i >= |head| {
      LowerLeavesNoCapital(s[1..], i - |head|);
    }
  }

  /** Beyond ASCII two characters have a letter in their lower case, and count as that letter. */
  lemma KelvinAndDottedI()
    ensures Slugify(['\U{212A}']) == "k" && Slugify(['\U{0130}']) == "i"
  {
    var kelvin, dotted := ['\U{212A}'], ['\U{0130}'];
    assert kelvin[1..] == "" && dotted[1..] == "";
    assert Lower(kelvin) == "k" + "" == "k";
    assert Lower(dotted) == ['i', '\U{0307}'] + "" == ['i'] + ['\U{0307}'];
    SlugifyJoinsWords(kelvin);
    SlugifyJoinsWords(dotted);
    RunOfWord("k", "");
    assert "k" + "" == "k" && "k"[1..] == "";
    assert Words("k") == ["k"];
    RunOfWord("i", ['\U{0307}']);
    assert Words(['i'] + ['\U{0307}']) == ["i"] + Words(['\U{0307}']);
    assert ['\U{0307}'][1..] == "";
  }

  predicate SameUpToCase(a: string, b: string) {
    |a| == |b| && forall i :: 0 <= i < |a| ==> SameLetter(a[i], b[i])
  }

  predicate SameLetter(c: char, d: char) {
    || c == d
    || ('A' <= c <= 'Z' && d as int == c as int + 32)
    || ('A' <= d <= 'Z' && c as int == d as int + 32)
  }

  /** Names that differ only in the case of letters get the same slug. */
  lemma CaseDoesNotMatter(a: string, b: string)
    requires IsAscii(a) && IsAscii(b) && SameUpToCase(a, b)
    ensures Slugify(a) == Slugify(b)
  {
    forall i | 0 <= i < |a| ensures |Lower(a)| == |Lower(b)| == |a| && Lower(a)[i] == Lower(b)[i] {
      LowerByPlace(a, i);
      LowerByPlace(b, i);
      assert SameLetter(a[i], b[i]);
    }
    if a == "" {
      assert b == "";
    } else {
      assert Lower(a) == Lower(b);
    }
  }

  /** The ASCII letters and digits of a text in order, letters in lower case. */
  function Kept(s: string): string {
    if s == "" then ""
    else
      (if 'A' <= s[0] <= 'Z' then [(s[0] as int + 32) as char]
       else if 'a' <= s[0] <= 'z' || '0' <= s[0] <= '9' then [s[0]]
       else "") + Kept(s[1..])
  }

  lemma {:induction false} KeptAppends(a: string, b: string)
    ensures Kept(a + b) == Kept(a) + Kept(b)
  {
    if a == "" {
      assert a + b == b;
    } else {
      assert (a + b)[1..] == a[1..] + b;
      KeptAppends(a[1..], b);
    }
  }

  lemma KeptChar(c: char)
    requires c < '\U{0080}'
    ensures Kept(LowerChar(c)) == Kept([c])
  {
    assert LowerChar(c)[1..] == "" && [c][1..] == "";
  }

  lemma {:induction false} KeptOfLower(s: string)
    requires IsAscii(s)
    ensures Kept(Lower(s)) == Kept(s)
  {
    if s != "" {
      var rest := s[1..];
      forall k | 0 <= k < |rest| ensures rest[k] < '\U{0080}' {
        assert rest[k] == s[k + 1];
      }
      KeptOfLower(rest);
      assert s[0] < '\U{0080}';
      KeptChar(s[0]);
      KeptAppends(LowerChar(s[0]), Lower(rest));
      KeptAppends([s[0]], rest);
      assert s == [s[0]] + rest;
    }
  }

  function Concat(words: seq<string>): string {
    if words == [] then "" else words[0] + Concat(words[1..])
  }

  lemma {:induction false} KeptOfWord(w: string)
    requires forall i :: 0 <= i < |w| ==> Alnum(w[i])
    ensures Kept(w) == w
  {
    if w != "" {
      KeptOfWord(w[1..]);
      assert Alnum(w[0]);
      assert w == [w[0]] + w[1..];
    }
  }

  lemma {:induction false} KeptOfJoined(words: seq<string>)
    requires AreWords(words)
    ensures Kept(Join(words, "-")) == Concat(words)
  {
    if words != [] {
      assert IsWord(words[0]);
      KeptOfWord(words[0]);
      if |words| == 1 {
        assert words[1..] == [];
        assert words[0] + "" == words[0];
      } else {
        var rest := Join(words[1..], "-");
        KeptOfJoined(words[1..]);
        KeptAppends(words[0] + "-", rest);
        KeptAppends(words[0], "-");
        assert "-"[1..] == "" && Kept("-") == "";
        assert words[0] + "" == words[0];
      }
    }
  }

  lemma {:induction false} KeptInWords(t: string)
    requires forall i :: 0 <= i < |t| ==> !('A' <= t[i] <= 'Z')
    ensures Kept(t) == Concat(Words(t))
    decreases |t|
  {
    if t != "" {
      if Alnum(t[0]) {
        var n := RunLength(t);
        var run, rest := t[..n], t[n..];
        assert t == run + rest;
        KeptAppends(run, rest);
        KeptOfWord(run);
        KeptInWords(rest);
        assert Words(t) == [run] + Words(rest) && ([run] + Words(rest))[1..] == Words(rest);
      } else {
        KeptInWords(t[1..]);
        assert !('A' <= t[0] <= 'Z');
      }
    }
  }

  /** A slug keeps every ASCII letter and digit of its name, in order and in lower case, and adds none. */
  lemma SlugKeepsLettersAndDigits(s: string)
    requires IsAscii(s)
    ensures Kept(Slugify(s)) == Kept(s)
  {
    var lower := Lower(s);
    SlugifyJoinsWords(s);
    forall i | 0 <= i < |lower| ensures !('A' <= lower[i] <= 'Z') {
      LowerLeavesNoCapital(s, i);
    }
    KeptOfJoined(Words(lower));
    KeptInWords(lower);
    KeptOfLower(s);
  }

  lemma {:induction false} LeadingIsDropped(s: string, drop: char -> bool) returns (left: string)
    ensures s == left + DropLeading(s, drop) && forall i :: 0 <= i < |left| ==> drop(left[i])
    ensures DropLeading(s, drop) != "" ==> !drop(DropLeading(s, drop)[0])
  {
    if s != "" && drop(s[0]) {
      var rest := LeadingIsDropped(s[1..], drop);
      left := [s[0]] + rest;
      assert s == [s[0]] + s[1..];
    } else {
      left := "";
    }
  }

  lemma {:induction false} TrailingIsDropped(s: string, drop: char -> bool) returns (right: string)
    ensures s == DropTrailing(s, drop) + right && forall i :: 0 <= i < |right| ==> drop(right[i])
    ensures var t := DropTrailing(s, drop); t != "" ==> !drop(t[|t| - 1])
  {
    if s != "" && drop(s[|s| - 1]) {
      var init, last := s[..|s| - 1], [s[|s| - 1]];
      var t := DropTrailing(init, drop);
      var rest := TrailingIsDropped(init, drop);
      right := rest + last;
      assert DropTrailing(s, drop) == t;
      assert s == init + last && (t + rest) + last == t + right;
    } else {
      right := "";
    }
  }

  /** Trimming takes white space off both ends, all of it and nothing else. */
  lemma TrimTakesSpaceOffTheEnds(s: string) returns (left: string, right: string)
    ensures s == left + Trim(s) + right
    ensures forall i :: 0 <= i < |left| ==> IsSpace(left[i])
    ensures forall i :: 0 <= i < |right| ==> IsSpace(right[i])
    ensures var t := Trim(s); t != "" ==> !IsSpace(t[0]) && !IsSpace(t[|t| - 1])
  {
    var rest := DropLeading(s, IsSpace);
    left := LeadingIsDropped(s, IsSpace);
    right := TrailingIsDropped(rest, IsSpace);
    assert s == left + (Trim(s) + right);
    assert Trim(s) != "" ==> Trim(s)[0] == rest[0];
  }

  /** The 25 characters of white space one by one: the ASCII ones, the no-break and Ogham spaces, those
      from en quad on, the separators, and the byte order mark. */
  lemma SpacesAre(c: char)
    ensures IsSpace(c) <==> c as int in {
      0x9, 0xA, 0xB, 0xC, 0xD, 0x20, 0xA0, 0x1680, 0x2000, 0x2001, 0x2002, 0x2003, 0x2004, 0x2005, 0x2006, 0x2007, 0x2008,
      0x2009, 0x200A, 0x2028, 0x2029, 0x202F, 0x205F, 0x3000, 0xFEFF}
  {
  }

  // ---- The search for a free slug --------------------------------------------------------------------

  function Digits(n: nat): (d: string)
    ensures IsWord(d)
  {
    var last := ['0' + (n % 10) as char];
    if n < 10 then last else Digits(n / 10) + last
  }

  lemma {:induction false} DigitsAreInjective(m: nat, n: nat)
    requires Digits(m) == Digits(n)
    ensures m == n
    decreases m
  {
    var d := Digits(m);
    assert d[|d| - 1] == '0' + (m % 10) as char == '0' + (n % 10) as char;
    assert m % 10 == n % 10;
    assert m < 10 <==> |d| == 1;
    assert n < 10 <==> |d| == 1;
    if m >= 10 {
      assert Digits(m / 10) == d[..|d| - 1] == Digits(n / 10);
      DigitsAreInjective(m / 10, n / 10);
    }
  }

  function Value(digits: string): int {
    if digits == "" then 0 else 10 * Value(digits[..|digits| - 1]) + (digits[|digits| - 1] as int - '0' as int)
  }

  /** A suffix is written in decimal, without leading zeros. */
  lemma {:induction false} DigitsAreDecimal(n: nat)
    ensures Value(Digits(n)) == n && (Digits(n)[0] == '0' ==> n == 0)
    ensures forall i :: 0 <= i < |Digits(n)| ==> '0' <= Digits(n)[i] <= '9'
  {
    var d := Digits(n);
    assert d[|d| - 1] == '0' + (n % 10) as char;
    if n < 10 {
      assert d[..|d| - 1] == "";
    } else {
      DigitsAreDecimal(n / 10);
      assert d[..|d| - 1] == Digits(n / 10);
    }
  }

  /** What the loop tries: the base itself, then base-2, base-3 and so on. */
  function Candidate(base: string, suffix: nat): string {
    if suffix <= 1 then base else base + "-" + Digits(suffix)
  }

  lemma CandidatesDiffer(base: string, j: nat, k: nat)
    requires 1 <= j < k
    ensures Candidate(base, j) != Candidate(base, k)
  {
    var a, b := Candidate(base, j), Candidate(base, k);
    assert |b| > |base|;
    if a == b {
      assert j > 1;
      assert a[|base| + 1..] == Digits(j) && b[|base| + 1..] == Digits(k);
      DigitsAreInjective(j, k);
      assert false;
    }
  }

  lemma CandidateIsASlug(base: string, suffix: nat)
    requires IsSlug(base) && base != ""
    ensures IsSlug(Candidate(base, suffix)) && Candidate(base, suffix) != ""
  {
    if suffix > 1 {
      var t, d := Candidate(base, suffix), Digits(suffix);
      forall i | 0 <= i < |t|
        ensures SlugAt(t, i)
      {
        if i <= |base| {
          assert SlugAt(base, if i < |base| then i else |base| - 1);
          assert i > 0 ==> t[i - 1] == base[i - 1];
        } else {
          assert t[i] == d[i - |base| - 1];
        }
      }
    }
  }

  /** The first candidates, as a set. */
  function Tried(base: string, k: nat): set<string> {
    set j | 1 <= j < k :: Candidate(base, j)
  }

  lemma {:induction false} TriedAreDistinct(base: string, k: nat)
    requires k >= 1
    ensures |Tried(base, k)| == k - 1
  {
    if k == 1 {
      assert Tried(base, k) == {};
    } else {
      TriedAreDistinct(base, k - 1);
      TriedStep(base, k - 1);
    }
  }

  lemma TriedStep(base: string, k: nat)
    requires k >= 1
    ensures Candidate(base, k) !in Tried(base, k) && Tried(base, k + 1) == Tried(base, k) + {Candidate(base, k)}
  {
    forall j | 1 <= j < k ensures Candidate(base, j) != Candidate(base, k) {
      CandidatesDiffer(base, j, k);
    }
  }

  lemma SubsetIsNoLarger<T>(a: set<T>, b: set<T>)
    requires a <= b
    ensures |a| <= |b|
  {
    assert b == a + (b - a);
  }

  /** Only as many candidates can be taken as there are slugs taken. */
  lemma TakenCandidates(base: string, taken: set<string>, k: nat)
    requires k >= 1 && Tried(base, k) <= taken
    ensures k - 1 <= |taken|
  {
    TriedAreDistinct(base, k);
    SubsetIsNoLarger(Tried(base, k), taken);
  }

  /** The least suffix from k on whose candidate is free. */
  function FreeSuffix(base: string, taken: set<string>, k: nat): (n: nat)
    requires k >= 1 && Tried(base, k) <= taken
    ensures n >= k && Candidate(base, n) !in taken && n <= |taken| + 1
    ensures forall j :: k <= j < n ==> Candidate(base, j) in taken
    decreases |taken| + 1 - k
  {
    TakenCandidates(base, taken, k);
    if Candidate(base, k) in taken then
      TakenCandidates(base, taken, k + 1);
      FreeSuffix(base, taken, k + 1)
    else k
  }

  function FreeSlug(base: string, taken: set<string>): (slug: string)
    ensures slug !in taken
  {
    Candidate(base, FreeSuffix(base, taken, 1))
  }

  /** The search loop: it ends, with the first free candidate. */
  method UniqueSlug(base: string, taken: set<string>) returns (slug: string)
    ensures slug == FreeSlug(base, taken) && slug !in taken
  {
    slug := base;
    var suffix := 1;
    while slug in taken
      invariant 1 <= suffix <= |taken| + 1 && slug == Candidate(base, suffix)
      invariant Tried(base, suffix) <= taken
      invariant FreeSuffix(base, taken, suffix) == FreeSuffix(base, taken, 1)
      decreases |taken| + 1 - suffix
    {
      suffix := suffix + 1;
      slug := base + "-" + Digits(suffix);
      TakenCandidates(base, taken, suffix);
    }
  }
}
