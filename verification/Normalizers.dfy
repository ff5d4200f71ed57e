/**
  The SKU and slug normalisers: chains of regular-expression replacements, and the normal
  form they compute.

  `toUpperCase` and `toLowerCase` are parameters: all that is used of them is that their
  result holds no ASCII letter of the other case, and that ASCII text already in the
  right case is left alone. Unicode case mapping satisfies both.
*/
module Normalizers {

  // ----- Character classes --------------------------------------------------------------

  predicate Upper(c: char) { 'A' <= c <= 'Z' }

  predicate Lower(c: char) { 'a' <= c <= 'z' }

  /** `\w`, which JavaScript restricts to ASCII. */
  predicate Word(c: char) { Upper(c) || Lower(c) || '0' <= c <= '9' || c == '_' }

  /** `\s`, also the set `trim` removes. */
  predicate Space(c: char) {
    || '\U{0009}' <= c <= '\U{000D}' || c == ' ' || c == '\U{00A0}' || c == '\U{1680}'
    || '\U{2000}' <= c <= '\U{200A}' || c == '\U{2028}' || c == '\U{2029}' || c == '\U{202F}'
    || c == '\U{205F}' || c == '\U{3000}' || c == '\U{FEFF}'
  }

  predicate NoneOf(s: string, p: char -> bool) { forall i | 0 <= i < |s| :: !p(s[i]) }

  /** Hyphens and word characters outside `other`. */
  predicate Plain(s: string, other: char -> bool) {
    forall i | 0 <= i < |s| :: (Word(s[i]) && !other(s[i])) || s[i] == '-'
  }

  /** What is used of a case mapping that leaves no character of class `other`. */
  ghost predicate CaseMap(f: string -> string, other: char -> bool) {
    && (forall s :: NoneOf(f(s), other))
    && (forall s | Plain(s, other) :: f(s) == s)
  }

  // ----- The replacements ---------------------------------------------------------------

  function TrimStart(s: string): string {
    if s != [] && Space(s[0]) then TrimStart(s[1..]) else s
  }

  function TrimEnd(s: string): string {
    if s != [] && Space(s[|s| - 1]) then TrimEnd(s[..|s| - 1]) else s
  }

  function Trim(s: string): string { TrimEnd(TrimStart(s)) }

  /** `replace(/[^\w-]/g, '-')`. */
  function HyphenateOthers(s: string): (r: string)
    ensures |r| == |s|
    ensures forall i | 0 <= i < |s| :: r[i] == if Word(s[i]) || s[i] == '-' then s[i] else '-'
  {
    if s == [] then [] else [if Word(s[0]) || s[0] == '-' then s[0] else '-'] + HyphenateOthers(s[1..])
  }

  /** `replace(/[^\w\s-]/g, '')`. */
  function DropOthers(s: string): string {
    if s == [] then []
    else if Word(s[0]) || Space(s[0]) || s[0] == '-' then [s[0]] + DropOthers(s[1..])
    else DropOthers(s[1..])
  }

  /** `replace(/\s+/g, '-')`: one hyphen for each maximal run of white space. */
  function HyphenateSpaces(s: string): string {
    if s == [] then []
    else if !Space(s[0]) then [s[0]] + HyphenateSpaces(s[1..])
    else if |s| > 1 && Space(s[1]) then HyphenateSpaces(s[1..])
    else ['-'] + HyphenateSpaces(s[1..])
  }

  /** `replace(/-+/g, '-')`. */
  function CollapseHyphens(s: string): string {
    if s == [] then []
    else if s[0] == '-' && |s| > 1 && s[1] == '-' then CollapseHyphens(s[1..])
    else [s[0]] + CollapseHyphens(s[1..])
  }

  /** `replace(/^-|-$/g, '')`: at most one hyphen at either end. */
  function StripHyphens(s: string): string {
    var t := if s != [] && s[0] == '-' then s[1..] else s;
    if t != [] && t[|t| - 1] == '-' then t[..|t| - 1] else t
  }

  function SanitizeSku(toUpperCase: string -> string, sku: string): string {
    StripHyphens(CollapseHyphens(HyphenateOthers(Trim(toUpperCase(sku)))))
  }

  function GenerateSlug(toLowerCase: string -> string, text: string): string {
    StripHyphens(CollapseHyphens(HyphenateSpaces(DropOthers(Trim(toLowerCase(text))))))
  }

  // ----- Reference definition: words joined by single hyphens ----------------------------

  predicate NonWord(c: char) { !Word(c) }

  predicate Hyphen(c: char) { c == '-' }

  predicate SpaceOrHyphen(c: char) { Space(c) || c == '-' }

  /** The maximal runs of characters of `s` that are not separators, in order. */
  function Tokens(s: string, separator: char -> bool): (words: seq<string>)
    ensures s != [] && !separator(s[0]) ==> words != []
    ensures forall w <- words :: w != []
  {
    if s == [] then []
    else if separator(s[0]) then Tokens(s[1..], separator)
    else
      var rest := Tokens(s[1..], separator);
      if |s| > 1 && !separator(s[1]) then
        assert forall w <- rest[1..] :: w in rest;
        [[s[0]] + rest[0]] + rest[1..]
      else [[s[0]]] + rest
  }

  function Join(words: seq<string>): string
    decreases |words|, 0
  {
    if words == [] then [] else words[0] + JoinRest(words[1..])
  }

  function JoinRest(words: seq<string>): string
    decreases |words|, 1
  {
    if words == [] then [] else "-" + Join(words)
  }

  /** Word characters of the right case and single inner hyphens, nothing else. */
  predicate NormalForm(s: string, other: char -> bool) {
    && Plain(s, other)
    && (s != [] ==> s[0] != '-' && s[|s| - 1] != '-')
    && (forall i | 0 < i < |s| :: s[i - 1] == '-' ==> s[i] != '-')
  }

  // ----- Collapsing and stripping hyphens is joining the words ----------------------------

  function HyphenIf(b: bool): string { if b then "-" else [] }

  /** The words joined, with one hyphen for the hyphens before and one for those after. */
  function Frame(before: bool, words: seq<string>, after: bool): string {
    if words == [] then HyphenIf(before || after)
    else HyphenIf(before) + (Join(words) + HyphenIf(after))
  }

  function Framed(t: string): string {
    if t == [] then [] else Frame(t[0] == '-', Tokens(t, Hyphen), t[|t| - 1] == '-')
  }

  lemma {:induction false} CollapsedShape(t: string)
    ensures CollapseHyphens(t) == Framed(t)
  {
    if t != [] {
      var rest := Tokens(t[1..], Hyphen);
      CollapsedShape(t[1..]);
      if t[0] == '-' {
        if |t| > 1 && t[1] != '-' { FrameHyphen(rest, t[|t| - 1] == '-'); }
      } else if rest == [] {
        NoTokens(t[1..]);
        FrameLone(t[0], |t| > 1);
        assert [[t[0]]] + rest == [[t[0]]];
      } else {
        FrameWord(t[0], rest, t[1] == '-', t[|t| - 1] == '-');
      }
    }
  }

  lemma FrameLone(c: char, after: bool)
    ensures Frame(false, [[c]], after) == [c] + HyphenIf(after)
  {
    assert Join([[c]]) == [c];
    assert [] + ([c] + HyphenIf(after)) == [c] + HyphenIf(after);
  }

  lemma FrameHyphen(words: seq<string>, after: bool)
    requires words != []
    ensures Frame(true, words, after) == "-" + Frame(false, words, after)
  {
    assert [] + (Join(words) + HyphenIf(after)) == Join(words) + HyphenIf(after);
  }

  /** A character before the words starts a word of its own or lengthens the first. */
  lemma Associative(a: string, b: string, c: string)
    ensures (a + b) + c == a + (b + c)
  {
  }

  lemma FrameWord(c: char, rest: seq<string>, before: bool, after: bool)
    requires rest != []
    ensures Frame(false, if before then [[c]] + rest else [[c] + rest[0]] + rest[1..], after)
         == [c] + Frame(before, rest, after)
  {
    var words := if before then [[c]] + rest else [[c] + rest[0]] + rest[1..];
    var tail := HyphenIf(after);
    if before {
      assert words[1..] == rest;
      assert Join(words) == [c] + ("-" + Join(rest));
      Associative([c], "-" + Join(rest), tail);
      Associative("-", Join(rest), tail);
    } else {
      assert words[1..] == rest[1..];
      var more := JoinRest(rest[1..]);
      assert Join(words) == ([c] + rest[0]) + more;
      Associative([c], rest[0], more);
      Associative([c], rest[0] + more, tail);
      assert [] + (Join(rest) + tail) == Join(rest) + tail;
    }
    assert [] + (Join(words) + tail) == Join(words) + tail;
  }

  lemma {:induction false} NoTokens(s: string)
    requires Tokens(s, Hyphen) == []
    ensures forall i | 0 <= i < |s| :: s[i] == '-'
  {
    if s != [] { NoTokens(s[1..]); }
  }

  lemma {:induction false} JoinIsNormal(words: seq<string>, other: char -> bool)
    requires forall w <- words :: w != [] && forall i | 0 <= i < |w| :: Word(w[i]) && !other(w[i])
    ensures NormalForm(Join(words), other)
    ensures words != [] ==> Join(words) != []
  {
    if words != [] {
      assert words[0] in words;
      JoinIsNormal(words[1..], other);
      if |words| > 1 {
        assert Join(words) == words[0] + ("-" + Join(words[1..]));
        NormalHyphenNormal(words[0], Join(words[1..]), other);
      } else {
        assert Join(words) == words[0];
      }
    }
  }

  /** Normal forms joined by one hyphen are a normal form. */
  lemma NormalHyphenNormal(a: string, b: string, other: char -> bool)
    requires a != [] && NormalForm(a, other)
    requires b != [] && NormalForm(b, other)
    ensures NormalForm(a + ("-" + b), other)
  {
    var s := a + ("-" + b);
    assert forall i | 0 <= i < |a| :: s[i] == a[i];
    assert forall i | |a| < i < |s| :: s[i] == b[i - |a| - 1];
    assert s[|a|] == '-' && s[|s| - 1] == b[|b| - 1];
    forall i | 0 < i < |s| && s[i - 1] == '-' ensures s[i] != '-' {
      if i > |a| + 1 { assert b[i - |a| - 2] == '-'; }
    }
  }

  /** And only they are: a hyphen between two texts is inner exactly when neither is empty. */
  lemma HyphenNormalIff(a: string, b: string, other: char -> bool)
    ensures NormalForm(a + ("-" + b), other) <==> a != [] && b != [] && NormalForm(a, other) && NormalForm(b, other)
  {
    var s := a + ("-" + b);
    assert forall i | 0 <= i < |a| :: s[i] == a[i];
    assert forall i | 0 <= i < |b| :: b[i] == s[|a| + 1 + i];
    assert s[|a|] == '-';
    if a != [] && b != [] && NormalForm(a, other) && NormalForm(b, other) {
      NormalHyphenNormal(a, b, other);
    } else if NormalForm(s, other) {
      assert a != [] && b != [];
      PartsAreNormal(a, b, other);
    }
  }

  lemma PartsAreNormal(a: string, b: string, other: char -> bool)
    requires a != [] && b != [] && NormalForm(a + ("-" + b), other)
    ensures NormalForm(a, other) && NormalForm(b, other)
  {
    var s := a + ("-" + b);
    assert forall i | 0 <= i < |a| :: a[i] == s[i];
    assert s[|a|] == '-' && s[|s| - 1] == b[|b| - 1];
    forall i | 0 <= i < |b|
      ensures b[i] == s[|a| + 1 + i] && (i > 0 && b[i - 1] == '-' ==> b[i] != '-')
    {
      assert i > 0 ==> b[i - 1] == s[|a| + i];
    }
    assert b[0] == s[|a| + 1] && a[|a| - 1] == s[|a| - 1];
  }

  /** Words joined by hyphens are a normal form, and not empty, exactly when each of them is. */
  lemma {:induction false} JoinIsNormalIff(words: seq<string>, other: char -> bool)
    requires words != []
    ensures Join(words) != [] && NormalForm(Join(words), other)
       <==> forall i | 0 <= i < |words| :: words[i] != [] && NormalForm(words[i], other)
  {
    if |words| > 1 {
      assert Join(words) == words[0] + ("-" + Join(words[1..]));
      JoinIsNormalIff(words[1..], other);
      HyphenNormalIff(words[0], Join(words[1..]), other);
      assert forall i | 0 <= i < |words| - 1 :: words[1..][i] == words[i + 1];
      assert forall i | 1 <= i < |words| :: words[i] == words[1..][i - 1];
    } else {
      assert Join(words) == words[0];
    }
  }

  lemma {:induction false} TokenCharacters(s: string, separator: char -> bool, w: string, i: nat)
    requires w in Tokens(s, separator) && i < |w|
    ensures w[i] in s && !separator(w[i])
  {
    if separator(s[0]) {
      TokenCharacters(s[1..], separator, w, i);
    } else {
      var rest := Tokens(s[1..], separator);
      if w in rest {
        TokenCharacters(s[1..], separator, w, i);
      } else if |s| > 1 && !separator(s[1]) && i > 0 {
        assert w == [s[0]] + rest[0];
        TokenCharacters(s[1..], separator, rest[0], i - 1);
      }
    }
  }

  /** `-+` to `-`, then the strip: exactly the hyphen-separated words, joined. */
  lemma CollapseAndStripIsJoin(t: string)
    ensures StripHyphens(CollapseHyphens(t)) == Join(Tokens(t, Hyphen))
  {
    var words := Tokens(t, Hyphen);
    CollapsedShape(t);
    if words != [] {
      forall w <- words, i | 0 <= i < |w| ensures w[i] != '-' {
        TokenCharacters(t, Hyphen, w, i);
      }
      JoinEnds(words);
      assert CollapseHyphens(t) == Framed(t);
      StripEnds(t[0] == '-', Join(words), t[|t| - 1] == '-');
    }
  }

  lemma StripEnds(before: bool, s: string, after: bool)
    requires s != [] && s[0] != '-' && s[|s| - 1] != '-'
    ensures StripHyphens(HyphenIf(before) + (s + HyphenIf(after))) == s
  {
    var all := HyphenIf(before) + (s + HyphenIf(after));
    var t := if all[0] == '-' then all[1..] else all;
    assert t == s + HyphenIf(after);
    assert after ==> t[..|t| - 1] == s;
  }

  lemma {:induction false} JoinEnds(words: seq<string>)
    requires words != []
    requires forall w <- words :: w != [] && forall i | 0 <= i < |w| :: w[i] != '-'
    ensures Join(words) != [] && Join(words)[0] != '-' && Join(words)[|Join(words)| - 1] != '-'
  {
    if |words| > 1 { JoinEnds(words[1..]); }
  }

  // ----- The steps before: they do not change the words -----------------------------------

  /** Rewriting separators into other separators keeps the words. */
  lemma {:induction false} SameTokens(s: string, p: char -> bool, t: string, q: char -> bool)
    requires |s| == |t|
    requires forall i | 0 <= i < |s| :: p(s[i]) == q(t[i]) && (!p(s[i]) ==> s[i] == t[i])
    ensures Tokens(s, p) == Tokens(t, q)
  {
    if s != [] { SameTokens(s[1..], p, t[1..], q); }
  }

  lemma {:induction false} TrailingSeparator(s: string, separator: char -> bool)
    requires s != [] && separator(s[|s| - 1])
    ensures Tokens(s, separator) == Tokens(s[..|s| - 1], separator)
  {
    if |s| > 1 {
      TrailingSeparator(s[1..], separator);
      assert s[1..][..|s| - 2] == s[..|s| - 1][1..];
    }
  }

  lemma {:induction false} TrimStartKeepsTokens(s: string, separator: char -> bool)
    requires forall c: char | Space(c) :: separator(c)
    ensures Tokens(TrimStart(s), separator) == Tokens(s, separator)
  {
    if s != [] && Space(s[0]) { TrimStartKeepsTokens(s[1..], separator); }
  }

  lemma {:induction false} TrimEndKeepsTokens(s: string, separator: char -> bool)
    requires forall c: char | Space(c) :: separator(c)
    ensures Tokens(TrimEnd(s), separator) == Tokens(s, separator)
  {
    if s != [] && Space(s[|s| - 1]) {
      TrailingSeparator(s, separator);
      TrimEndKeepsTokens(s[..|s| - 1], separator);
    }
  }

  lemma {:induction false} DropOthersSnoc(s: string, c: char)
    ensures DropOthers(s + [c]) == DropOthers(s) + DropOthers([c])
  {
    if s != [] {
      assert (s + [c])[1..] == s[1..] + [c];
      DropOthersSnoc(s[1..], c);
    }
  }

  lemma {:induction false} TrimStartThenDrop(s: string)
    ensures Tokens(DropOthers(TrimStart(s)), SpaceOrHyphen) == Tokens(DropOthers(s), SpaceOrHyphen)
  {
    if s != [] && Space(s[0]) { TrimStartThenDrop(s[1..]); }
  }

  lemma {:induction false} TrimEndThenDrop(s: string)
    ensures Tokens(DropOthers(TrimEnd(s)), SpaceOrHyphen) == Tokens(DropOthers(s), SpaceOrHyphen)
  {
    if s != [] && Space(s[|s| - 1]) {
      var front, last := s[..|s| - 1], s[|s| - 1];
      assert s == front + [last];
      DropOthersSnoc(front, last);
      assert DropOthers(s) == DropOthers(front) + [last];
      TrailingSeparator(DropOthers(s), SpaceOrHyphen);
      TrimEndThenDrop(front);
    }
  }

  lemma {:induction false} HyphenateSpacesKeepsTokens(s: string)
    ensures Tokens(HyphenateSpaces(s), Hyphen) == Tokens(s, SpaceOrHyphen)
    ensures s == [] <==> HyphenateSpaces(s) == []
    ensures s != [] ==> (Hyphen(HyphenateSpaces(s)[0]) <==> SpaceOrHyphen(s[0]))
  {
    if s != [] { HyphenateSpacesKeepsTokens(s[1..]); }
  }

  // ----- What the normalisers compute -----------------------------------------------------

  /** A SKU is the words of the upper-cased text, joined by single hyphens. */
  lemma SkuIsJoinedWords(toUpperCase: string -> string, sku: string)
    ensures SanitizeSku(toUpperCase, sku) == Join(Tokens(toUpperCase(sku), NonWord))
  {
    var u := toUpperCase(sku);
    TrimStartKeepsTokens(u, NonWord);
    TrimEndKeepsTokens(TrimStart(u), NonWord);
    var h := HyphenateOthers(Trim(u));
    SameTokens(Trim(u), NonWord, h, Hyphen);
    CollapseAndStripIsJoin(h);
  }

  /** A slug drops special characters first; its words are then parted by spaces or hyphens. */
  lemma SlugIsJoinedWords(toLowerCase: string -> string, text: string)
    ensures GenerateSlug(toLowerCase, text) == Join(Tokens(DropOthers(toLowerCase(text)), SpaceOrHyphen))
  {
    var l := toLowerCase(text);
    TrimStartThenDrop(l);
    TrimEndThenDrop(TrimStart(l));
    var d := DropOthers(Trim(l));
    HyphenateSpacesKeepsTokens(d);
    CollapseAndStripIsJoin(HyphenateSpaces(d));
  }

  lemma {:induction false} NoWordsIff(s: string, separator: char -> bool)
    ensures Tokens(s, separator) == [] <==> forall i | 0 <= i < |s| :: separator(s[i])
  {
    if s != [] {
      NoWordsIff(s[1..], separator);
      assert forall i | 1 <= i < |s| :: s[i] == s[1..][i - 1];
    }
  }

  /** Nothing is left of a text exactly when its upper-case form has no word character. */
  lemma SkuIsEmptyIff(toUpperCase: string -> string, sku: string)
    ensures SanitizeSku(toUpperCase, sku) == []
       <==> forall i | 0 <= i < |toUpperCase(sku)| :: !Word(toUpperCase(sku)[i])
  {
    SkuIsJoinedWords(toUpperCase, sku);
    NoWordsIff(toUpperCase(sku), NonWord);
    var words := Tokens(toUpperCase(sku), NonWord);
    if words != [] { assert words[0] in words; }
  }

  lemma SkuIsNormal(toUpperCase: string -> string, sku: string)
    requires CaseMap(toUpperCase, Lower)
    ensures NormalForm(SanitizeSku(toUpperCase, sku), Lower)
  {
    var u := toUpperCase(sku);
    assert NoneOf(u, Lower);
    SkuIsJoinedWords(toUpperCase, sku);
    var words := Tokens(u, NonWord);
    forall w <- words, i | 0 <= i < |w| ensures Word(w[i]) && !Lower(w[i]) {
      TokenCharacters(u, NonWord, w, i);
    }
    JoinIsNormal(words, Lower);
  }

  lemma {:induction false} DropOthersCharacters(s: string, c: char)
    requires c in DropOthers(s)
    ensures c in s && (Word(c) || Space(c) || c == '-')
  {
    if c != s[0] || !(Word(s[0]) || Space(s[0]) || s[0] == '-') { DropOthersCharacters(s[1..], c); }
  }

  lemma SlugIsNormal(toLowerCase: string -> string, text: string)
    requires CaseMap(toLowerCase, Upper)
    ensures NormalForm(GenerateSlug(toLowerCase, text), Upper)
  {
    var l := toLowerCase(text);
    assert NoneOf(l, Upper);
    SlugIsJoinedWords(toLowerCase, text);
    var words := Tokens(DropOthers(l), SpaceOrHyphen);
    forall w <- words, i | 0 <= i < |w| ensures Word(w[i]) && !Upper(w[i]) {
      TokenCharacters(DropOthers(l), SpaceOrHyphen, w, i);
      DropOthersCharacters(l, w[i]);
    }
    JoinIsNormal(words, Upper);
  }

  // ----- Normal forms are exactly the fixed points ------------------------------------------

  lemma {:induction false} DropOthersIdentity(s: string)
    requires forall i | 0 <= i < |s| :: Word(s[i]) || s[i] == '-'
    ensures DropOthers(s) == s && HyphenateSpaces(s) == s
  {
    if s != [] { DropOthersIdentity(s[1..]); }
  }

  lemma {:induction false} CollapseIdentity(s: string)
    requires forall i | 0 < i < |s| :: s[i - 1] == '-' ==> s[i] != '-'
    ensures CollapseHyphens(s) == s
  {
    if s != [] {
      assert forall i | 0 < i < |s[1..]| :: s[1..][i - 1] == s[i] && s[1..][i] == s[i + 1];
      CollapseIdentity(s[1..]);
    }
  }

  /** The normal forms are the texts `sanitizeSku` leaves alone; in particular it is idempotent. */
  lemma SkuNormalFormsAreFixedPoints(toUpperCase: string -> string, s: string)
    requires CaseMap(toUpperCase, Lower)
    ensures NormalForm(s, Lower) <==> SanitizeSku(toUpperCase, s) == s
    ensures SanitizeSku(toUpperCase, SanitizeSku(toUpperCase, s)) == SanitizeSku(toUpperCase, s)
  {
    SkuIsNormal(toUpperCase, s);
    SkuFixed(toUpperCase, SanitizeSku(toUpperCase, s));
    if NormalForm(s, Lower) { SkuFixed(toUpperCase, s); }
  }

  /** A text in normal form has nothing to trim, collapse or strip. */
  lemma NothingToStrip(s: string, other: char -> bool)
    requires NormalForm(s, other)
    ensures Trim(s) == s && CollapseHyphens(s) == s && StripHyphens(s) == s
  {
    CollapseIdentity(s);
  }

  lemma SkuFixed(toUpperCase: string -> string, s: string)
    requires CaseMap(toUpperCase, Lower) && NormalForm(s, Lower)
    ensures SanitizeSku(toUpperCase, s) == s
  {
    NothingToStrip(s, Lower);
    assert toUpperCase(s) == s;
    assert HyphenateOthers(s) == s;
  }

  lemma SlugNormalFormsAreFixedPoints(toLowerCase: string -> string, s: string)
    requires CaseMap(toLowerCase, Upper)
    ensures NormalForm(s, Upper) <==> GenerateSlug(toLowerCase, s) == s
    ensures GenerateSlug(toLowerCase, GenerateSlug(toLowerCase, s)) == GenerateSlug(toLowerCase, s)
  {
    SlugIsNormal(toLowerCase, s);
    SlugFixed(toLowerCase, GenerateSlug(toLowerCase, s));
    if NormalForm(s, Upper) { SlugFixed(toLowerCase, s); }
  }

  lemma SlugFixed(toLowerCase: string -> string, s: string)
    requires CaseMap(toLowerCase, Upper) && NormalForm(s, Upper)
    ensures GenerateSlug(toLowerCase, s) == s
  {
    NothingToStrip(s, Upper);
    assert toLowerCase(s) == s;
    DropOthersIdentity(s);
  }
}
