/**
 Protecting placeholders such as `{name}` from a translator (src/modules/i18n/placeholder-utils.ts): each
 becomes a numbered token, and `restore` puts each back, whatever the translator did around the tokens.
 */
module Placeholders {
  import opened Common
  import opened Decimals

  function Token(i: nat): string { "__SLP" + Decimal(i) + "__" }

  predicate IsPrefix(p: string, s: string) { |p| <= |s| && s[..|p|] == p }

  // ----- The regular expression -----

  predicate NameChar(c: char) {
    'a' <= c <= 'z' || 'A' <= c <= 'Z' || '0' <= c <= '9' || c == '_' || c == '.' || c == '-'
  }

  /** The length of the run of name characters at the start of `s`. */
  function NameRun(s: string): (n: nat)
    ensures n <= |s| && (forall k :: 0 <= k < n ==> NameChar(s[k])) && (n < |s| ==> !NameChar(s[n]))
  {
    if s != "" && NameChar(s[0]) then 1 + NameRun(s[1..]) else 0
  }

  /** The length of the placeholder at the start of `s`: a brace, at least one name character, a brace; or zero. */
  function MatchLength(s: string): (n: nat)
    ensures n <= |s| && (n > 0 ==> n >= 3 && s[0] == '{' && s[n - 1] == '}')
  {
    if s == "" || s[0] != '{' then 0
    else
      var n := NameRun(s[1..]);
      if n == 0 || 1 + n >= |s| || s[1 + n] != '}' then 0 else n + 2
  }

  predicate IsPlaceholder(p: string) { p != "" && MatchLength(p) == |p| }

  // ----- replaceAll -----

  /** `String.replaceAll` with literal texts: occurrences are taken from the left and do not overlap. */
  function ReplaceAll(s: string, pattern: string, replacement: string): string
    requires pattern != ""
    decreases |s|
  {
    if s == "" then ""
    else if IsPrefix(pattern, s) then replacement + ReplaceAll(s[|pattern|..], pattern, replacement)
    else [s[0]] + ReplaceAll(s[1..], pattern, replacement)
  }

  // ----- Templates -----

  /** A text with tokens in it, as its pieces. */
  datatype Template = End(text: string) | Piece(text: string, index: nat, rest: Template)

  function Flat(t: Template): string {
    match t
    case End(text) => text
    case Piece(text, index, rest) => text + (Token(index) + Flat(rest))
  }

  /** The text with every token of a known placeholder replaced by that placeholder, all at once. */
  function Fill(t: Template, placeholders: seq<string>): string {
    match t
    case End(text) => text
    case Piece(text, index, rest) =>
      text + ((if index < |placeholders| then placeholders[index] else Token(index)) + Fill(rest, placeholders))
  }

  predicate SlpAt(s: string, i: nat) {
    i + 3 <= |s| && s[i] == 'S' && s[i + 1] == 'L' && s[i + 2] == 'P'
  }

  /** The text never spells the letters that tokens are made of. */
  ghost predicate NoSlp(s: string) { forall i: nat :: !SlpAt(s, i) }

  /** Between its tokens, a text is free of those letters. */
  ghost predicate Clean(t: Template) {
    NoSlp(t.text) && (t.Piece? ==> Clean(t.rest))
  }

  // ----- protect -----

  /** `protectPlaceholders`: replaces the placeholders from left to right, keeping them in a list. */
  method Protect(source: string) returns (text: string, placeholders: seq<string>)
    ensures text == Flat(Protected(source, 0))
    ensures placeholders == Found(source)
  {
    text, placeholders := "", [];
    var rest := source;
    while rest != ""
      invariant text + Flat(Protected(rest, |placeholders|)) == Flat(Protected(source, 0))
      invariant placeholders + Found(rest) == Found(source)
      decreases |rest|
    {
      ProtectStep(rest, |placeholders|, text, placeholders);
      var n := MatchLength(rest);
      if n > 0 {
        text := text + Token(|placeholders|);
        placeholders := placeholders + [rest[..n]];
        rest := rest[n..];
      } else {
        text := text + [rest[0]];
        rest := rest[1..];
      }
    }
  }

  lemma Splice<T>(a: seq<T>, b: seq<T>, c: seq<T>, whole: seq<T>)
    requires whole == b + c
    ensures (a + b) + c == a + whole
  {
  }

  /** What one step of the scan leaves the same: the text so far with what the rest of the source becomes. */
  lemma ProtectStep(rest: string, next: nat, text: string, placeholders: seq<string>)
    requires rest != ""
    ensures var n := MatchLength(rest);
            var whole := text + Flat(Protected(rest, next));
            if n > 0 then
              && (text + Token(next)) + Flat(Protected(rest[n..], next + 1)) == whole
              && (placeholders + [rest[..n]]) + Found(rest[n..]) == placeholders + Found(rest)
            else
              && (text + [rest[0]]) + Flat(Protected(rest[1..], next)) == whole
              && placeholders + Found(rest[1..]) == placeholders + Found(rest)
  {
    var n := MatchLength(rest);
    if n > 0 {
      Splice(text, Token(next), Flat(Protected(rest[n..], next + 1)), Flat(Protected(rest, next)));
      Splice(placeholders, [rest[..n]], Found(rest[n..]), Found(rest));
    } else {
      PrependFlat(rest[0], Protected(rest[1..], next));
      Splice(text, [rest[0]], Flat(Protected(rest[1..], next)), Flat(Protected(rest, next)));
    }
  }

  function Prepend(c: char, t: Template): Template {
    match t
    case End(text) => End([c] + text)
    case Piece(text, index, rest) => Piece([c] + text, index, rest)
  }

  lemma PrependFlat(c: char, t: Template)
    ensures Flat(Prepend(c, t)) == [c] + Flat(t)
  {
  }

  /** The template that protecting `source` yields, its tokens numbered from `next`. */
  function Protected(source: string, next: nat): Template
    decreases |source|
  {
    if source == "" then End("")
    else
      var n := MatchLength(source);
      if n > 0 then Piece("", next, Protected(source[n..], next + 1))
      else Prepend(source[0], Protected(source[1..], next))
  }

  function Found(source: string): seq<string>
    decreases |source|
  {
    if source == "" then []
    else
      var n := MatchLength(source);
      if n > 0 then [source[..n]] + Found(source[n..]) else Found(source[1..])
  }

  // ----- restore -----

  function RestoreFrom(s: string, placeholders: seq<string>, k: nat): string
    requires k <= |placeholders|
    decreases |placeholders| - k
  {
    if k == |placeholders| then s else RestoreFrom(ReplaceAll(s, Token(k), placeholders[k]), placeholders, k + 1)
  }

  /** `restore`: one `replaceAll` a placeholder, in order. */
  method Restore(translated: string, placeholders: seq<string>) returns (restored: string)
    ensures restored == RestoreFrom(translated, placeholders, 0)
  {
    restored := translated;
    for index := 0 to |placeholders|
      invariant RestoreFrom(restored, placeholders, index) == RestoreFrom(translated, placeholders, 0)
    {
      restored := ReplaceAll(restored, Token(index), placeholders[index]);
    }
  }

  // ----- Replacing one token -----

  lemma TokenStart(i: nat)
    ensures var t := Token(i); |t| >= 8 && t[0] == '_' && t[1] == '_' && t[2] == 'S' && t[3] == 'L' && t[4] == 'P'
  {
  }

  /** A token cannot start inside a clean text, even where the text runs into another token. */
  lemma NoTokenInText(text: string, after: string, k: nat)
    requires NoSlp(text) && text != ""
    requires after == "" || (|after| >= 2 && after[0] == '_' && after[1] == '_')
    ensures !IsPrefix(Token(k), text + after)
  {
    TokenStart(k);
    var s := text + after;
    if IsPrefix(Token(k), s) {
      forall j | 0 <= j < 5
        ensures s[j] == Token(k)[j]
      {
        assert s[j] == s[..|Token(k)|][j];
      }
      assert |text| >= 5 ==> SlpAt(text, 2);
      assert false;
    }
  }

  lemma {:induction false} SkipText(text: string, after: string, k: nat, replacement: string)
    requires NoSlp(text)
    requires after == "" || (|after| >= 2 && after[0] == '_' && after[1] == '_')
    ensures ReplaceAll(text + after, Token(k), replacement) == text + ReplaceAll(after, Token(k), replacement)
  {
    if text == "" {
      assert text + after == after;
    } else {
      NoTokenInText(text, after, k);
      assert (text + after)[1..] == text[1..] + after;
      forall i: nat
        ensures !SlpAt(text[1..], i)
      {
        assert !SlpAt(text, i + 1);
      }
      SkipText(text[1..], after, k, replacement);
    }
  }

  lemma FlatStart(t: Template)
    ensures exists after :: Flat(t) == t.text + after
              && (after == "" || (|after| >= 2 && after[0] == '_' && after[1] == '_'))
  {
    if t.End? {
      assert Flat(t) == t.text + "";
    } else {
      TokenStart(t.index);
      var after := Token(t.index) + Flat(t.rest);
      assert Flat(t) == t.text + after && |after| >= 2 && after[0] == '_' && after[1] == '_';
    }
  }

  lemma PrefixLetter(p: string, s: string, i: nat)
    requires IsPrefix(p, s) && i < |p|
    ensures s[i] == p[i]
  {
    assert s[i] == s[..|p|][i];
  }

  /** Tokens are self-delimiting: none is the start of another one's text. */
  lemma TokensDiffer(j: nat, k: nat, after: string)
    requires IsPrefix(Token(k), Token(j) + after)
    ensures j == k
  {
    TokenLetters(j, after);
    TokenLetters(k, "");
    assert Token(k) + "" == Token(k);
    var s, d, e := Token(j) + after, Decimal(j), Decimal(k);
    forall i | 0 <= i < |e|
      ensures s[5 + i] == e[i]
    {
      PrefixLetter(Token(k), s, 5 + i);
    }
    PrefixLetter(Token(k), s, 5 + |e|);
    SameDigits(s, d, e);
    DecimalInjective(j, k);
  }

  lemma TokenLetters(j: nat, after: string)
    ensures var s := Token(j) + after;
            && |Token(j)| == |Decimal(j)| + 7 <= |s|
            && (forall i :: 0 <= i < |Decimal(j)| ==> s[5 + i] == Decimal(j)[i])
            && s[5 + |Decimal(j)|] == '_'
            && AllDigits(Decimal(j))
  {
  }

  /** Where one run of digits is closed by an underscore, no other one goes on. */
  lemma NotLonger(s: string, d: string, e: string)
    requires AllDigits(e) && 5 + |d| < |s| && 5 + |e| < |s| && s[5 + |d|] == '_'
    requires forall i :: 0 <= i < |e| ==> s[5 + i] == e[i]
    ensures |e| <= |d|
  {
    var n := |d|;
    if n < |e| {
      LetterIsDigit(s, e, n);
    }
  }

  lemma LetterIsDigit(s: string, e: string, n: nat)
    requires AllDigits(e) && n < |e| && 5 + |e| < |s|
    requires forall i :: 0 <= i < |e| ==> s[5 + i] == e[i]
    ensures IsDigit(s[5 + n])
  {
    assert s[5 + n] == e[n];
  }

  lemma SameDigits(s: string, d: string, e: string)
    requires AllDigits(d) && AllDigits(e) && 5 + |d| < |s| && 5 + |e| < |s|
    requires forall i :: 0 <= i < |d| ==> s[5 + i] == d[i]
    requires forall i :: 0 <= i < |e| ==> s[5 + i] == e[i]
    requires s[5 + |d|] == '_' && s[5 + |e|] == '_'
    ensures d == e
  {
    NotLonger(s, d, e);
    NotLonger(s, e, d);
    forall i | 0 <= i < |d|
      ensures d[i] == e[i]
    {
      assert s[5 + i] == d[i] && s[5 + i] == e[i];
    }
  }

  lemma NoSlpJoin(a: string, b: string)
    requires NoSlp(a) && NoSlp(b)
    requires a == "" || b == "" || (a[|a| - 1] != 'S' && a[|a| - 1] != 'L') || (b[0] != 'L' && b[0] != 'P')
    ensures NoSlp(a + b)
  {
    forall i: nat
      ensures !SlpAt(a + b, i)
    {
      if i + 3 <= |a| {
        assert !SlpAt(a, i);
      } else if i >= |a| {
        assert !SlpAt(b, i - |a|);
      }
    }
  }

  lemma DigitsNoSlp(s: string)
    requires AllDigits(s)
    ensures NoSlp(s)
  {
    forall i: nat
      ensures !SlpAt(s, i)
    {
      assert i < |s| ==> IsDigit(s[i]);
    }
  }

  lemma StepOver(c: char, after: string, pattern: string, replacement: string)
    requires pattern != "" && !IsPrefix(pattern, [c] + after)
    ensures ReplaceAll([c] + after, pattern, replacement) == [c] + ReplaceAll(after, pattern, replacement)
  {
    assert ([c] + after)[1..] == after;
  }

  /** What follows the first three characters of a token. */
  function Tail(j: nat): string { "LP" + Decimal(j) + "__" }

  lemma TokenIsTail(j: nat, after: string)
    ensures Token(j) + after == ['_'] + (['_'] + (['S'] + (Tail(j) + after)))
  {
    assert Token(j) == ['_'] + (['_'] + (['S'] + Tail(j)));
  }

  lemma SkipTail(j: nat, rest: Template, k: nat, replacement: string)
    requires Clean(rest)
    ensures ReplaceAll(Tail(j) + Flat(rest), Token(k), replacement)
              == Tail(j) + ReplaceAll(Flat(rest), Token(k), replacement)
  {
    FlatStart(rest);
    var after :| Flat(rest) == rest.text + after
        && (after == "" || (|after| >= 2 && after[0] == '_' && after[1] == '_'));
    TailNoSlp(j);
    NoSlpJoin(Tail(j), rest.text);
    Splice(Tail(j), rest.text, after, Flat(rest));
    SkipText(Tail(j) + rest.text, after, k, replacement);
    SkipText(rest.text, after, k, replacement);
    Splice(Tail(j), rest.text, ReplaceAll(after, Token(k), replacement), ReplaceAll(Flat(rest), Token(k), replacement));
  }

  lemma NotTokenAt(c: char, d: char, after: string, k: nat)
    requires c != '_' || d != '_'
    ensures !IsPrefix(Token(k), [c] + ([d] + after))
  {
    TokenStart(k);
    var s := [c] + ([d] + after);
    if IsPrefix(Token(k), s) {
      PrefixLetter(Token(k), s, 0);
      PrefixLetter(Token(k), s, 1);
      assert false;
    }
  }

  /** A different token is passed over whole. */
  lemma SkipToken(j: nat, rest: Template, k: nat, replacement: string)
    requires Clean(rest) && j != k
    ensures ReplaceAll(Token(j) + Flat(rest), Token(k), replacement)
         == Token(j) + ReplaceAll(Flat(rest), Token(k), replacement)
  {
    var v := Tail(j) + Flat(rest);
    TokenIsTail(j, Flat(rest));
    if IsPrefix(Token(k), Token(j) + Flat(rest)) {
      TokensDiffer(j, k, Flat(rest));
    }
    StepOver('_', ['_'] + (['S'] + v), Token(k), replacement);
    NotTokenAt('_', 'S', v, k);
    StepOver('_', ['S'] + v, Token(k), replacement);
    assert v == ['L'] + v[1..];
    NotTokenAt('S', 'L', v[1..], k);
    StepOver('S', v, Token(k), replacement);
    SkipTail(j, rest, k, replacement);
    TokenIsTail(j, ReplaceAll(Flat(rest), Token(k), replacement));
  }

  lemma TailNoSlp(j: nat)
    ensures NoSlp(Tail(j))
  {
    DigitsNoSlp(Decimal(j));
    NoSlpJoin("LP", Decimal(j));
    NoSlpJoin("LP" + Decimal(j), "__");
  }

  function Merge(s: string, t: Template): Template { t.(text := s + t.text) }

  /** The template with token `k` replaced. */
  function Subst(t: Template, k: nat, placeholder: string): Template {
    match t
    case End(_) => t
    case Piece(text, index, rest) =>
      var r := Subst(rest, k, placeholder);
      if index == k then Merge(text + placeholder, r) else Piece(text, index, r)
  }

  lemma MergeFlat(s: string, t: Template)
    ensures Flat(Merge(s, t)) == s + Flat(t)
  {
  }

  /** On a clean template, `replaceAll` replaces exactly the tokens of that number. */
  lemma {:induction false} ReplaceIsSubst(t: Template, k: nat, placeholder: string)
    requires Clean(t)
    ensures ReplaceAll(Flat(t), Token(k), placeholder) == Flat(Subst(t, k, placeholder))
  {
    match t
    case End(text) =>
      SkipText(text, "", k, placeholder);
      assert text + "" == text;
    case Piece(text, index, rest) =>
      ReplaceIsSubst(rest, k, placeholder);
      TokenStart(index);
      var after := Token(index) + Flat(rest);
      SkipText(text, after, k, placeholder);
      if index == k {
        assert after[..|Token(k)|] == Token(k) && after[|Token(k)|..] == Flat(rest);
        MergeFlat(text + placeholder, Subst(rest, k, placeholder));
      } else {
        SkipToken(index, rest, k, placeholder);
      }
  }

  // ----- Restoring -----

  ghost predicate AllPlaceholders(placeholders: seq<string>) {
    forall i :: 0 <= i < |placeholders| ==> IsPlaceholder(placeholders[i]) && NoSlp(placeholders[i])
  }

  /** All tokens of the template are numbered `k` or more. */
  predicate IndexesFrom(t: Template, k: nat) {
    t.Piece? ==> t.index >= k && IndexesFrom(t.rest, k)
  }

  lemma {:induction false} SubstClean(t: Template, k: nat, placeholder: string)
    requires Clean(t) && IsPlaceholder(placeholder) && NoSlp(placeholder)
    ensures Clean(Subst(t, k, placeholder))
  {
    if t.Piece? {
      SubstClean(t.rest, k, placeholder);
      if t.index == k {
        NoSlpJoin(t.text, placeholder);
        NoSlpJoin(t.text + placeholder, Subst(t.rest, k, placeholder).text);
      }
    }
  }

  lemma {:induction false} SubstIndexes(t: Template, k: nat, placeholder: string)
    requires IndexesFrom(t, k)
    ensures IndexesFrom(Subst(t, k, placeholder), k + 1)
  {
    if t.Piece? {
      SubstIndexes(t.rest, k, placeholder);
    }
  }

  lemma MergeFill(s: string, t: Template, placeholders: seq<string>)
    ensures Fill(Merge(s, t), placeholders) == s + Fill(t, placeholders)
  {
  }

  lemma {:induction false} SubstFill(t: Template, k: nat, placeholders: seq<string>)
    requires k < |placeholders|
    ensures Fill(Subst(t, k, placeholders[k]), placeholders) == Fill(t, placeholders)
  {
    if t.Piece? {
      SubstFill(t.rest, k, placeholders);
      if t.index == k {
        MergeFill(t.text + placeholders[k], Subst(t.rest, k, placeholders[k]), placeholders);
      }
    }
  }

  lemma {:induction false} FillNothing(t: Template, placeholders: seq<string>)
    requires IndexesFrom(t, |placeholders|)
    ensures Fill(t, placeholders) == Flat(t)
  {
    if t.Piece? {
      FillNothing(t.rest, placeholders);
    }
  }

  lemma {:induction false} RestoreFills(t: Template, placeholders: seq<string>, k: nat)
    requires k <= |placeholders| && AllPlaceholders(placeholders)
    requires Clean(t) && IndexesFrom(t, k)
    ensures RestoreFrom(Flat(t), placeholders, k) == Fill(t, placeholders)
    decreases |placeholders| - k
  {
    if k == |placeholders| {
      FillNothing(t, placeholders);
    } else {
      ReplaceIsSubst(t, k, placeholders[k]);
      SubstClean(t, k, placeholders[k]);
      SubstIndexes(t, k, placeholders[k]);
      RestoreFills(Subst(t, k, placeholders[k]), placeholders, k + 1);
      SubstFill(t, k, placeholders);
    }
  }

  // ----- What protect yields -----

  lemma NoSlpSlice(s: string, i: nat, j: nat)
    requires NoSlp(s) && i <= j <= |s|
    ensures NoSlp(s[i..j])
  {
    forall k: nat
      ensures !SlpAt(s[i..j], k)
    {
      assert !SlpAt(s, i + k);
    }
  }

  lemma {:induction false} FoundAreMatches(source: string)
    requires NoSlp(source)
    ensures AllPlaceholders(Found(source))
    decreases |source|
  {
    if source != "" {
      var n := MatchLength(source);
      var m := if n > 0 then n else 1;
      assert source[m..] == source[m..|source|];
      NoSlpSlice(source, m, |source|);
      FoundAreMatches(source[m..]);
      if n > 0 {
        MatchIsPlaceholder(source);
        assert source[..n] == source[0..n];
        NoSlpSlice(source, 0, n);
      }
    }
  }

  /** What the expression matches is itself a placeholder. */
  lemma MatchIsPlaceholder(s: string)
    requires MatchLength(s) > 0
    ensures IsPlaceholder(s[..MatchLength(s)])
  {
    var n := NameRun(s[1..]);
    var p := s[..n + 2];
    NameRunPrefix(s[1..], p[1..]);
    assert p[1..][n] == '}';
  }

  lemma {:induction false} NameRunPrefix(s: string, p: string)
    requires NameRun(s) < |p| <= |s| && p == s[..|p|]
    ensures NameRun(p) == NameRun(s)
    decreases |s|
  {
    if s != "" && NameChar(s[0]) {
      assert p[1..] == s[1..][..|p| - 1];
      NameRunPrefix(s[1..], p[1..]);
    }
  }

  lemma PrependClean(c: char, t: Template, source: string)
    requires source != "" && NoSlp(source) && c == source[0]
    requires Clean(t) && IsPrefix(t.text, source[1..])
    ensures Clean(Prepend(c, t)) && IsPrefix(Prepend(c, t).text, source)
  {
    var text := [c] + t.text;
    assert text == source[0..|text|] by {
      assert source[1..][..|t.text|] == source[1..|text|];
    }
    NoSlpSlice(source, 0, |text|);
  }

  lemma PrependFill(c: char, t: Template, placeholders: seq<string>)
    ensures Fill(Prepend(c, t), placeholders) == [c] + Fill(t, placeholders)
  {
  }

  lemma FoundSplit(source: string, before: seq<string>)
    requires source != "" && MatchLength(source) > 0
    ensures var n := MatchLength(source);
            before + Found(source) == before + [source[..n]] + Found(source[n..])
  {
    var n := MatchLength(source);
    Splice(before, [source[..n]], Found(source[n..]), Found(source));
  }

  lemma MatchFills(source: string, n: nat, index: nat, placeholders: seq<string>, rest: Template)
    requires n <= |source| && index < |placeholders| && placeholders[index] == source[..n]
    requires Clean(rest) && Fill(rest, placeholders) == source[n..]
    ensures var t := Piece("", index, rest);
            Clean(t) && IsPrefix(t.text, source) && Fill(t, placeholders) == source
  {
    assert source == source[..n] + source[n..];
  }

  /** Protecting a clean source yields a clean template, whose tokens stand for the placeholders found. */
  lemma {:induction false} ProtectedFills(source: string, before: seq<string>)
    requires NoSlp(source)
    ensures var t := Protected(source, |before|);
            && Clean(t) && IsPrefix(t.text, source)
            && Fill(t, before + Found(source)) == source
    decreases |source|
  {
    if source != "" {
      var n := MatchLength(source);
      if n > 0 {
        assert source[n..] == source[n..|source|];
        NoSlpSlice(source, n, |source|);
        ProtectedFills(source[n..], before + [source[..n]]);
        FoundSplit(source, before);
        MatchFills(source, n, |before|, before + [source[..n]] + Found(source[n..]),
                   Protected(source[n..], |before| + 1));
      } else {
        assert source[1..] == source[1..|source|];
        NoSlpSlice(source, 1, |source|);
        ProtectedFills(source[1..], before);
        PrependClean(source[0], Protected(source[1..], |before|), source);
        PrependFill(source[0], Protected(source[1..], |before|), before + Found(source));
      }
    }
  }

  // ----- The theorems -----

  /**
   Whatever text comes back with the tokens in any order and number, `restore` replaces each token by
   its own placeholder and leaves everything else, unknown tokens included, as it is.
   */
  lemma RestoreReplacesEachToken(source: string, translated: Template)
    requires NoSlp(source) && Clean(translated)
    ensures RestoreFrom(Flat(translated), Found(source), 0) == Fill(translated, Found(source))
  {
    FoundAreMatches(source);
    AllIndexesFromZero(translated);
    RestoreFills(translated, Found(source), 0);
  }

  lemma {:induction false} AllIndexesFromZero(t: Template)
    ensures IndexesFrom(t, 0)
  {
    if t.Piece? {
      AllIndexesFromZero(t.rest);
    }
  }

  /** Protecting and restoring is the identity on every source without the token letters. */
  lemma RoundTrip(source: string)
    requires NoSlp(source)
    ensures RestoreFrom(Flat(Protected(source, 0)), Found(source), 0) == source
  {
    ProtectedFills(source, []);
    assert [] + Found(source) == Found(source);
    RestoreReplacesEachToken(source, Protected(source, 0));
  }

  // ----- Which placeholders are protected -----

  /** A brace, one or more letters, digits, underscores, dots and hyphens, and a brace: `n` characters. */
  predicate Spells(s: string, n: nat) {
    && 3 <= n <= |s| && s[0] == '{' && s[n - 1] == '}'
    && forall k :: 1 <= k < n - 1 ==>
         'a' <= s[k] <= 'z' || 'A' <= s[k] <= 'Z' || '0' <= s[k] <= '9' || s[k] in {'_', '.', '-'}
  }

  lemma MatchExactly(s: string, n: nat)
    ensures MatchLength(s) == n && n > 0 <==> Spells(s, n)
  {
    if Spells(s, n) {
      var run := NameRun(s[1..]);
      assert forall k :: 0 <= k < n - 2 ==> NameChar(s[1..][k]);
      assert s[1..][n - 2] == '}';
      assert run == n - 2;
    }
    if MatchLength(s) == n > 0 {
      assert forall k :: 0 < k < n - 1 ==> s[k] == s[1..][k - 1];
    }
  }

  /** Gaps and what stands between them, in turn. */
  function Weave(gaps: seq<string>, between: seq<string>): string
    requires |gaps| == |between| + 1
  {
    if between == [] then gaps[0] else gaps[0] + (between[0] + Weave(gaps[1..], between[1..]))
  }

  /** No placeholder starts in a gap; one is between any two of them. */
  ghost predicate Leftmost(gaps: seq<string>, between: seq<string>)
    requires |gaps| == |between| + 1
  {
    && (forall i, n: nat :: 0 <= i < |gaps[0]| ==> !Spells(Weave(gaps, between)[i..], n))
    && (between != [] ==> Spells(between[0], |between[0]|) && Leftmost(gaps[1..], between[1..]))
  }

  function Tokens(k: nat, n: nat): seq<string> {
    seq(n, i requires 0 <= i < n => "__SLP" + Decimal(k + i) + "__")
  }

  /**
   Protecting takes the placeholders that a scan from the left meets, and no others, and puts numbered tokens in
   their places; the gaps between them stay as they are.
   */
  lemma {:induction false} ProtectExactly(source: string, k: nat) returns (gaps: seq<string>)
    ensures |gaps| == |Found(source)| + 1
    ensures Weave(gaps, Found(source)) == source && Leftmost(gaps, Found(source))
    ensures Weave(gaps, Tokens(k, |Found(source)|)) == Flat(Protected(source, k))
    decreases |source|
  {
    var n := MatchLength(source);
    MatchExactly(source, n);
    if source == "" {
      gaps := [""];
    } else if n > 0 {
      var rest := ProtectExactly(source[n..], k + 1);
      gaps := [""] + rest;
      WeaveMatch(rest, source, n, k);
      MatchIsPlaceholder(source);
      MatchExactly(source[..n], n);
    } else {
      var rest := ProtectExactly(source[1..], k);
      gaps := [[source[0]] + rest[0]] + rest[1..];
      WeaveLetter(source[0], rest, Found(source));
      WeaveLetter(source[0], rest, Tokens(k, |Found(source)|));
      PrependFlat(source[0], Protected(source[1..], k));
      LetterLeftmost(source, rest);
    }
  }

  lemma WeaveMatch(rest: seq<string>, source: string, n: nat, k: nat)
    requires source != "" && n == MatchLength(source) > 0 && |rest| == |Found(source[n..])| + 1
    requires Weave(rest, Found(source[n..])) == source[n..]
    requires Weave(rest, Tokens(k + 1, |Found(source[n..])|)) == Flat(Protected(source[n..], k + 1))
    ensures Weave([""] + rest, Found(source)) == source
    ensures Weave([""] + rest, Tokens(k, |Found(source)|)) == Flat(Protected(source, k))
  {
    var gaps, found := [""] + rest, Found(source);
    assert gaps[1..] == rest && found[1..] == Found(source[n..]);
    assert source[..n] + source[n..] == source;
    var tokens := Tokens(k, |found|);
    assert tokens[0] == Token(k) && tokens[1..] == Tokens(k + 1, |found| - 1);
  }

  lemma WeaveLetter(c: char, rest: seq<string>, between: seq<string>)
    requires |rest| == |between| + 1
    ensures Weave([[c] + rest[0]] + rest[1..], between) == [c] + Weave(rest, between)
  {
    assert ([[c] + rest[0]] + rest[1..])[1..] == rest[1..];
  }

  lemma LetterLeftmost(source: string, rest: seq<string>)
    requires source != "" && MatchLength(source) == 0 && |rest| == |Found(source)| + 1
    requires Weave(rest, Found(source)) == source[1..] && Leftmost(rest, Found(source))
    ensures Leftmost([[source[0]] + rest[0]] + rest[1..], Found(source))
  {
    var gaps := [[source[0]] + rest[0]] + rest[1..];
    WeaveLetter(source[0], rest, Found(source));
    assert Weave(gaps, Found(source)) == source && gaps[1..] == rest[1..];
    forall i, n: nat | 0 <= i < |gaps[0]|
      ensures !Spells(source[i..], n)
    {
      if i == 0 {
        MatchExactly(source, n);
        assert source[0..] == source;
      } else {
        assert source[i..] == source[1..][i - 1..];
      }
    }
  }

  // ----- Exactly which sources come back -----

  /** In `before` followed by the token, the token occurs at the end only. */
  predicate OnlyAtEnd(before: string, token: string) {
    forall i :: 0 <= i < |before| ==> !IsPrefix(token, (before + token)[i..])
  }

  predicate Absent(token: string, text: string) {
    forall i :: 0 <= i <= |text| ==> !IsPrefix(token, text[i..])
  }

  /**
   No placeholder's token occurs where it was not put: not in the source before that placeholder, running
   into the token included, and not in the protected text after it. `before` is the part of the source
   that was scanned, `k` the number of placeholders in it.
   */
  predicate TokensStandAlone(before: string, rest: string, k: nat)
    decreases |rest|
  {
    if rest == "" then true
    else
      var n := MatchLength(rest);
      if n > 0 then
        && OnlyAtEnd(before, Token(k))
        && Absent(Token(k), Flat(Protected(rest[n..], k + 1)))
        && TokensStandAlone(before + rest[..n], rest[n..], k + 1)
      else TokensStandAlone(before + [rest[0]], rest[1..], k)
  }

  /** `to` is `from` with some occurrences of the token, none overlapping another, replaced. */
  ghost predicate Rewrites(from: string, to: string, token: string, placeholder: string)
    requires token != ""
    decreases |from|
  {
    if from == "" then to == ""
    else
      || (to != "" && to[0] == from[0] && Rewrites(from[1..], to[1..], token, placeholder))
      || (IsPrefix(token, from) && IsPrefix(placeholder, to)
          && Rewrites(from[|token|..], to[|placeholder|..], token, placeholder))
  }

  ghost predicate StartsNoToken(s: string, least: nat) {
    forall j {:trigger Token(j)} :: j >= least ==> !IsPrefix(Token(j), s)
  }

  /**
   The two texts differ first where one has a brace and the other an underscore at which no token from
   `least` on starts. Such texts stay apart, whatever tokens are still replaced in either.
   */
  ghost predicate Apart(x: string, y: string, least: nat)
    decreases |x|
  {
    && x != "" && y != ""
    && if x[0] == y[0] then Apart(x[1..], y[1..], least)
       else
         || (x[0] == '{' && y[0] == '_' && StartsNoToken(y, least))
         || (y[0] == '{' && x[0] == '_' && StartsNoToken(x, least))
  }

  predicate NoBrace(s: string) { forall i :: 0 <= i < |s| ==> s[i] != '{' }

  lemma TokenHasNoBrace(k: nat)
    ensures NoBrace(Token(k)) && Token(k) != "" && Token(k)[0] == '_'
  {
    var d := Decimal(k);
    forall i | 0 <= i < |Token(k)|
      ensures Token(k)[i] != '{'
    {
      assert 5 <= i < 5 + |d| ==> Token(k)[i] == d[i - 5] && IsDigit(d[i - 5]);
    }
  }

  lemma PrefixTail(p: string, s: string)
    requires p != "" && s != ""
    ensures IsPrefix(p, s) <==> p[0] == s[0] && IsPrefix(p[1..], s[1..])
  {
    if |p| <= |s| {
      assert s[1..][..|p| - 1] == s[..|p|][1..];
      if p[0] == s[0] && IsPrefix(p[1..], s[1..]) {
        assert s[..|p|] == [s[0]] + s[1..][..|p| - 1];
        assert p == [p[0]] + p[1..];
      }
    }
  }

  /** A text without a brace that starts the rewritten text started the original, too. */
  lemma {:induction false} RewritingKeepsStart(p: string, from: string, to: string, token: string, placeholder: string)
    requires NoBrace(p) && IsPrefix(p, to) && token != "" && placeholder != "" && placeholder[0] == '{'
    requires Rewrites(from, to, token, placeholder)
    ensures IsPrefix(p, from)
    decreases |from|
  {
    if p != "" && from != "" {
      PrefixTail(p, to);
      if !(to[0] == from[0] && Rewrites(from[1..], to[1..], token, placeholder)) {
        PrefixLetter(placeholder, to, 0);
        assert false;
      }
      RewritingKeepsStart(p[1..], from[1..], to[1..], token, placeholder);
      PrefixTail(p, from);
    }
  }

  lemma SameToken(i: nat, j: nat, s: string)
    requires IsPrefix(Token(i), s) && IsPrefix(Token(j), s)
    ensures i == j
  {
    assert s == Token(j) + s[|Token(j)|..];
    TokensDiffer(j, i, s[|Token(j)|..]);
  }

  lemma SwapApart(x: string, y: string, least: nat)
    ensures Apart(x, y, least) == Apart(y, x, least)
    decreases |x|
  {
    if x != "" && y != "" && x[0] == y[0] {
      SwapApart(x[1..], y[1..], least);
    }
  }

  /** Texts that are apart do not start with different tokens. */
  lemma {:induction false} ApartStarts(p: string, q: string, x: string, y: string, least: nat)
    requires Apart(x, y, least) && NoBrace(p) && NoBrace(q) && IsPrefix(p, x) && IsPrefix(q, y)
    ensures IsPrefix(p, q) || IsPrefix(q, p)
    decreases |p|
  {
    if p != "" && q != "" {
      PrefixTail(p, x);
      PrefixTail(q, y);
      PrefixTail(p, q);
      PrefixTail(q, p);
      ApartStarts(p[1..], q[1..], x[1..], y[1..], least);
    }
  }

  lemma {:induction false} ApartAfter(p: string, x: string, y: string, least: nat)
    requires Apart(x, y, least) && IsPrefix(p, x) && IsPrefix(p, y)
    ensures Apart(x[|p|..], y[|p|..], least)
    decreases |p|
  {
    if p != "" {
      PrefixTail(p, x);
      PrefixTail(p, y);
      ApartAfter(p[1..], x[1..], y[1..], least);
      assert x[1..][|p| - 1..] == x[|p|..] && y[1..][|p| - 1..] == y[|p|..];
    } else {
      assert x[0..] == x && y[0..] == y;
    }
  }

  lemma {:induction false} ApartBefore(p: string, x: string, y: string, least: nat)
    requires IsPrefix(p, x) && IsPrefix(p, y) && Apart(x[|p|..], y[|p|..], least)
    ensures Apart(x, y, least)
    decreases |p|
  {
    if p != "" {
      PrefixTail(p, x);
      PrefixTail(p, y);
      assert x[1..][|p| - 1..] == x[|p|..] && y[1..][|p| - 1..] == y[|p|..];
      ApartBefore(p[1..], x[1..], y[1..], least);
    } else {
      assert x[0..] == x && y[0..] == y;
    }
  }

  lemma {:induction false} ApartIsDifferent(x: string, y: string, least: nat)
    requires Apart(x, y, least)
    ensures x != y
    decreases |x|
  {
    if x[0] == y[0] {
      ApartIsDifferent(x[1..], y[1..], least);
    }
  }

  /** Where one side replaces a token and the other passes over the same text, they come apart. */
  lemma OneReplaced(k: nat, placeholder: string, y: string, x': string, y': string)
    requires IsPlaceholder(placeholder) && IsPrefix(placeholder, x')
    requires y != "" && y[0] == '_' && y' != "" && y'[0] == '_'
    requires Rewrites(y, y', Token(k), placeholder)
    requires forall i {:trigger Token(i)} :: i > k ==> !IsPrefix(Token(i), y)
    ensures Apart(x', y', k + 1)
  {
    PrefixLetter(placeholder, x', 0);
    forall i {:trigger Token(i)} | i > k
      ensures !IsPrefix(Token(i), y')
    {
      TokenHasNoBrace(i);
      TokenHasNoBrace(k);
      if IsPrefix(Token(i), y') {
        RewritingKeepsStart(Token(i), y, y', Token(k), placeholder);
        assert false;
      }
    }
  }

  /** Two different rewritings of one text are apart. */
  lemma {:induction false} DifferentRewritings(w: string, x: string, y: string, k: nat, placeholder: string)
    requires IsPlaceholder(placeholder) && x != y
    requires Rewrites(w, x, Token(k), placeholder) && Rewrites(w, y, Token(k), placeholder)
    ensures Apart(x, y, k + 1)
    decreases |w|
  {
    var token := Token(k);
    var skipX := x != "" && x[0] == w[0] && Rewrites(w[1..], x[1..], token, placeholder);
    var skipY := y != "" && y[0] == w[0] && Rewrites(w[1..], y[1..], token, placeholder);
    if skipX && skipY {
      assert x == [x[0]] + x[1..] && y == [y[0]] + y[1..];
      DifferentRewritings(w[1..], x[1..], y[1..], k, placeholder);
    } else if !skipX && !skipY {
      assert x == placeholder + x[|placeholder|..] && y == placeholder + y[|placeholder|..];
      DifferentRewritings(w[|token|..], x[|placeholder|..], y[|placeholder|..], k, placeholder);
      ApartBefore(placeholder, x, y, k + 1);
    } else {
      TokenHasNoBrace(k);
      PrefixLetter(token, w, 0);
      forall i {:trigger Token(i)} | i > k
        ensures !IsPrefix(Token(i), w)
      {
        if IsPrefix(Token(i), w) {
          SameToken(i, k, w);
        }
      }
      if skipY {
        OneReplaced(k, placeholder, w, x, y);
      } else {
        OneReplaced(k, placeholder, w, y, x);
        SwapApart(x, y, k + 1);
      }
    }
  }

  lemma OneReplacedApart(x: string, y: string, x': string, y': string, k: nat, placeholder: string)
    requires IsPlaceholder(placeholder) && Apart(x, y, k) && x[0] == y[0]
    requires IsPrefix(Token(k), x) && IsPrefix(placeholder, x')
    requires y' != "" && y'[0] == y[0] && Rewrites(y, y', Token(k), placeholder)
    ensures Apart(x', y', k + 1)
  {
    TokenHasNoBrace(k);
    PrefixLetter(Token(k), x, 0);
    forall i {:trigger Token(i)} | i > k
      ensures !IsPrefix(Token(i), y)
    {
      if IsPrefix(Token(i), y) {
        TokenHasNoBrace(i);
        ApartStarts(Token(k), Token(i), x, y, k);
        if IsPrefix(Token(k), Token(i)) {
          SameToken(k, i, Token(i));
        } else {
          SameToken(k, i, Token(k));
        }
      }
    }
    OneReplaced(k, placeholder, y, x', y');
  }

  /** Replacing a token, anywhere on either side, keeps texts apart. */
  lemma {:induction false} RewritingsStayApart(x: string, y: string, x': string, y': string, k: nat,
                                               placeholder: string)
    requires IsPlaceholder(placeholder) && Apart(x, y, k)
    requires Rewrites(x, x', Token(k), placeholder) && Rewrites(y, y', Token(k), placeholder)
    ensures Apart(x', y', k + 1)
    decreases |x|
  {
    var token := Token(k);
    if x[0] != y[0] {
      FirstDifferenceStays(x, y, x', y', k, placeholder);
    } else {
      var skipX := x' != "" && x'[0] == x[0] && Rewrites(x[1..], x'[1..], token, placeholder);
      var skipY := y' != "" && y'[0] == y[0] && Rewrites(y[1..], y'[1..], token, placeholder);
      if skipX && skipY {
        RewritingsStayApart(x[1..], y[1..], x'[1..], y'[1..], k, placeholder);
      } else if !skipX && !skipY {
        ApartAfter(token, x, y, k);
        RewritingsStayApart(x[|token|..], y[|token|..], x'[|placeholder|..], y'[|placeholder|..], k, placeholder);
        ApartBefore(placeholder, x', y', k + 1);
      } else if skipY {
        OneReplacedApart(x, y, x', y', k, placeholder);
      } else {
        SwapApart(x, y, k);
        OneReplacedApart(y, x, y', x', k, placeholder);
        SwapApart(x', y', k + 1);
      }
    }
  }

  lemma FirstDifferenceStays(x: string, y: string, x': string, y': string, k: nat, placeholder: string)
    requires IsPlaceholder(placeholder) && Apart(x, y, k) && x[0] != y[0]
    requires Rewrites(x, x', Token(k), placeholder) && Rewrites(y, y', Token(k), placeholder)
    ensures Apart(x', y', k + 1)
  {
    if x[0] == '{' {
      UnderscoreStays(x, y, x', y', k, placeholder);
    } else {
      UnderscoreStays(y, x, y', x', k, placeholder);
      SwapApart(x', y', k + 1);
    }
  }

  lemma UnderscoreStays(x: string, y: string, x': string, y': string, k: nat, placeholder: string)
    requires IsPlaceholder(placeholder) && x != "" && y != "" && x[0] == '{' && y[0] == '_' && StartsNoToken(y, k)
    requires Rewrites(x, x', Token(k), placeholder) && Rewrites(y, y', Token(k), placeholder)
    ensures Apart(x', y', k + 1)
  {
    TokenHasNoBrace(k);
    PrefixTail(Token(k), x);
    assert !IsPrefix(Token(k), y);
    forall i {:trigger Token(i)} | i > k
      ensures !IsPrefix(Token(i), y')
    {
      TokenHasNoBrace(i);
      if IsPrefix(Token(i), y') {
        RewritingKeepsStart(Token(i), y, y', Token(k), placeholder);
        assert false;
      }
    }
  }

  // ----- The two ways on from a protected text -----

  lemma {:induction false} RewritesNone(w: string, token: string, placeholder: string)
    requires token != ""
    ensures Rewrites(w, w, token, placeholder)
    decreases |w|
  {
    if w != "" {
      RewritesNone(w[1..], token, placeholder);
    }
  }

  lemma {:induction false} ReplaceAllRewrites(w: string, token: string, placeholder: string)
    requires token != ""
    ensures Rewrites(w, ReplaceAll(w, token, placeholder), token, placeholder)
    decreases |w|
  {
    if w != "" {
      var to := ReplaceAll(w, token, placeholder);
      if IsPrefix(token, w) {
        ReplaceAllRewrites(w[|token|..], token, placeholder);
        assert to[|placeholder|..] == ReplaceAll(w[|token|..], token, placeholder)
            && to[..|placeholder|] == placeholder;
      } else {
        ReplaceAllRewrites(w[1..], token, placeholder);
        assert to[1..] == ReplaceAll(w[1..], token, placeholder);
      }
    }
  }

  lemma {:induction false} RewritesOne(before: string, token: string, placeholder: string, after: string)
    requires token != ""
    ensures Rewrites(before + (token + after), before + (placeholder + after), token, placeholder)
    decreases |before|
  {
    var from, to := before + (token + after), before + (placeholder + after);
    if before == "" {
      assert from == token + after && to == placeholder + after;
      assert from[|token|..] == after && to[|placeholder|..] == after;
      assert from[..|token|] == token && to[..|placeholder|] == placeholder;
      RewritesNone(after, token, placeholder);
    } else {
      assert from[1..] == before[1..] + (token + after) && to[1..] == before[1..] + (placeholder + after);
      RewritesOne(before[1..], token, placeholder, after);
    }
  }

  /** `replaceAll` changes nothing exactly when the token is absent. */
  lemma {:induction false} AbsentExactly(token: string, text: string, placeholder: string)
    requires token != "" && token[0] == '_' && placeholder != "" && placeholder[0] == '{'
    ensures ReplaceAll(text, token, placeholder) == text <==> Absent(token, text)
    decreases |text|
  {
    if text == "" {
      assert text[0..] == "";
    } else {
      assert text[0..] == text;
      if IsPrefix(token, text) {
        PrefixLetter(token, text, 0);
        assert ReplaceAll(text, token, placeholder)[0] == '{';
      } else {
        AbsentExactly(token, text[1..], placeholder);
        AbsentTail(token, text);
        assert text == [text[0]] + text[1..];
        assert ([text[0]] + ReplaceAll(text[1..], token, placeholder))[1..]
            == ReplaceAll(text[1..], token, placeholder);
      }
    }
  }

  lemma AbsentTail(token: string, text: string)
    requires text != ""
    ensures Absent(token, text) <==> !IsPrefix(token, text) && Absent(token, text[1..])
  {
    assert text[0..] == text;
    forall i | 0 <= i <= |text[1..]|
      ensures text[1..][i..] == text[i + 1..]
    {
    }
    if !IsPrefix(token, text) && Absent(token, text[1..]) {
      forall i | 0 <= i <= |text|
        ensures !IsPrefix(token, text[i..])
      {
        assert i > 0 ==> text[i..] == text[1..][i - 1..];
      }
    }
  }

  lemma OnlyAtEndTail(before: string, token: string)
    requires before != ""
    ensures OnlyAtEnd(before, token) <==> !IsPrefix(token, before + token) && OnlyAtEnd(before[1..], token)
  {
    var s := before + token;
    assert s[0..] == s;
    forall i | 0 <= i < |before[1..]|
      ensures (before[1..] + token)[i..] == s[i + 1..]
    {
    }
    if !IsPrefix(token, s) && OnlyAtEnd(before[1..], token) {
      forall i | 0 <= i < |before|
        ensures !IsPrefix(token, s[i..])
      {
        assert i > 0 ==> s[i..] == (before[1..] + token)[i - 1..];
      }
    }
  }

  /** `replaceAll` replaces the token at its own place and nothing else exactly when it stands alone. */
  lemma {:induction false} OwnPlaceExactly(before: string, token: string, placeholder: string, after: string)
    requires token != "" && token[0] == '_' && placeholder != "" && placeholder[0] == '{'
    ensures ReplaceAll(before + (token + after), token, placeholder) == before + (placeholder + after)
            <==> OnlyAtEnd(before, token) && Absent(token, after)
    decreases |before|
  {
    var text := before + (token + after);
    if before == "" {
      assert text == token + after && text[|token|..] == after && text[..|token|] == token;
      AbsentExactly(token, after, placeholder);
      assert (placeholder + ReplaceAll(after, token, placeholder))[|placeholder|..]
          == ReplaceAll(after, token, placeholder);
      assert (placeholder + after)[|placeholder|..] == after;
      assert before + (placeholder + after) == placeholder + after;
    } else {
      OnlyAtEndTail(before, token);
      StartInside(before, token, after);
      if IsPrefix(token, text) {
        PrefixLetter(token, text, 0);
        assert ReplaceAll(text, token, placeholder)[0] == '{' && (before + (placeholder + after))[0] == '_';
      } else {
        OwnPlaceExactly(before[1..], token, placeholder, after);
        var rest := ReplaceAll(before[1..] + (token + after), token, placeholder);
        assert text[1..] == before[1..] + (token + after);
        assert ([text[0]] + rest)[1..] == rest;
        assert (before + (placeholder + after))[1..] == before[1..] + (placeholder + after);
        assert before + (placeholder + after) == [text[0]] + (before[1..] + (placeholder + after));
      }
    }
  }

  /** Whether the token starts in front of its own place does not depend on what comes after it. */
  lemma StartInside(before: string, token: string, after: string)
    requires before != ""
    ensures IsPrefix(token, before + (token + after)) <==> IsPrefix(token, before + token)
  {
    assert (before + (token + after))[..|token|] == (before + token)[..|token|];
  }

  /** The last part of a list of placeholders, from `k` on, is what the rest of the source holds. */
  ghost predicate Listed(placeholders: seq<string>, k: nat, rest: string) {
    k <= |placeholders| && placeholders[k..] == Found(rest)
  }

  lemma ListedMatch(placeholders: seq<string>, k: nat, rest: string)
    requires rest != "" && MatchLength(rest) > 0 && Listed(placeholders, k, rest)
    ensures k < |placeholders| && placeholders[k] == rest[..MatchLength(rest)] && IsPlaceholder(placeholders[k])
    ensures Listed(placeholders, k + 1, rest[MatchLength(rest)..])
  {
    var n := MatchLength(rest);
    assert Found(rest) == [rest[..n]] + Found(rest[n..]);
    assert placeholders[k..][0] == placeholders[k];
    assert placeholders[k + 1..] == placeholders[k..][1..];
    MatchIsPlaceholder(rest);
  }

  lemma ListedSkip(placeholders: seq<string>, k: nat, rest: string)
    requires rest != "" && MatchLength(rest) == 0 && Listed(placeholders, k, rest)
    ensures Listed(placeholders, k, rest[1..])
  {
  }

  lemma ProtectedSkip(before: string, rest: string, k: nat)
    requires rest != "" && MatchLength(rest) == 0
    ensures before + Flat(Protected(rest, k)) == (before + [rest[0]]) + Flat(Protected(rest[1..], k))
    ensures before + rest == (before + [rest[0]]) + rest[1..]
  {
    PrependFlat(rest[0], Protected(rest[1..], k));
    Splice(before, [rest[0]], Flat(Protected(rest[1..], k)), Flat(Protected(rest, k)));
    Splice(before, [rest[0]], rest[1..], rest);
  }

  lemma ProtectedMatch(rest: string, k: nat)
    requires rest != "" && MatchLength(rest) > 0
    ensures Flat(Protected(rest, k)) == Token(k) + Flat(Protected(rest[MatchLength(rest)..], k + 1))
  {
  }

  /** A text apart from the protected one is never restored to the source. */
  lemma {:induction false} NeverMeets(x: string, before: string, rest: string, placeholders: seq<string>, k: nat)
    requires Listed(placeholders, k, rest) && Apart(x, before + Flat(Protected(rest, k)), k)
    ensures RestoreFrom(x, placeholders, k) != before + rest
    decreases |rest|
  {
    if rest == "" {
      ApartIsDifferent(x, before + "", k);
    } else {
      var n := MatchLength(rest);
      if n == 0 {
        ProtectedSkip(before, rest, k);
        ListedSkip(placeholders, k, rest);
        NeverMeets(x, before + [rest[0]], rest[1..], placeholders, k);
      } else {
        ListedMatch(placeholders, k, rest);
        ProtectedMatch(rest, k);
        var after := Flat(Protected(rest[n..], k + 1));
        var x' := ReplaceAll(x, Token(k), placeholders[k]);
        ReplaceAllRewrites(x, Token(k), placeholders[k]);
        RewritesOne(before, Token(k), placeholders[k], after);
        RewritingsStayApart(x, before + (Token(k) + after), x', before + (placeholders[k] + after), k, placeholders[k]);
        Splice(before, placeholders[k], after, placeholders[k] + after);
        NeverMeets(x', before + rest[..n], rest[n..], placeholders, k + 1);
        MatchedRest(before, rest, n);
      }
    }
  }

  lemma MatchedRest(before: string, rest: string, n: nat)
    requires n <= |rest|
    ensures (before + rest[..n]) + rest[n..] == before + rest
  {
    assert rest == rest[..n] + rest[n..];
  }

  lemma {:induction false} RestoredExactly(before: string, rest: string, placeholders: seq<string>, k: nat)
    requires Listed(placeholders, k, rest)
    ensures RestoreFrom(before + Flat(Protected(rest, k)), placeholders, k) == before + rest
            <==> TokensStandAlone(before, rest, k)
    decreases |rest|
  {
    if rest == "" {
      assert placeholders[k..] == [];
      assert before + "" == before;
    } else if MatchLength(rest) == 0 {
      ProtectedSkip(before, rest, k);
      ListedSkip(placeholders, k, rest);
      RestoredExactly(before + [rest[0]], rest[1..], placeholders, k);
    } else {
      MatchRestoredExactly(before, rest, placeholders, k);
    }
  }

  lemma {:induction false} MatchRestoredExactly(before: string, rest: string, placeholders: seq<string>, k: nat)
    requires rest != "" && MatchLength(rest) > 0 && Listed(placeholders, k, rest)
    ensures RestoreFrom(before + Flat(Protected(rest, k)), placeholders, k) == before + rest
            <==> TokensStandAlone(before, rest, k)
    decreases |rest|, 0
  {
    var n := MatchLength(rest);
    ListedMatch(placeholders, k, rest);
    ProtectedMatch(rest, k);
    MatchedRest(before, rest, n);
    TokenHasNoBrace(k);
    var after := Flat(Protected(rest[n..], k + 1));
    var text := before + (Token(k) + after);
    var own := before + (placeholders[k] + after);
    var x' := ReplaceAll(text, Token(k), placeholders[k]);
    OwnPlaceExactly(before, Token(k), placeholders[k], after);
    Splice(before, placeholders[k], after, placeholders[k] + after);
    if x' == own {
      RestoredExactly(before + rest[..n], rest[n..], placeholders, k + 1);
    } else {
      ReplaceAllRewrites(text, Token(k), placeholders[k]);
      RewritesOne(before, Token(k), placeholders[k], after);
      DifferentRewritings(text, x', own, k, placeholders[k]);
      NeverMeets(x', before + rest[..n], rest[n..], placeholders, k + 1);
    }
  }

  /** For every source: protecting and restoring gives it back if and only if its tokens stand alone. */
  lemma RestoredExactlyWhenTokensStandAlone(source: string)
    ensures RestoreFrom(Flat(Protected(source, 0)), Found(source), 0) == source <==> TokensStandAlone("", source, 0)
  {
    assert Found(source)[0..] == Found(source);
    RestoredExactly("", source, Found(source), 0);
    assert "" + source == source && "" + Flat(Protected(source, 0)) == Flat(Protected(source, 0));
  }

  lemma {:induction false} ScanNoBrace(before: string, text: string, rest: string, k: nat)
    requires NoBrace(text)
    ensures TokensStandAlone(before, text + rest, k) == TokensStandAlone(before + text, rest, k)
    decreases |text|
  {
    if text == "" {
      assert text + rest == rest && before + text == before;
    } else {
      assert (text + rest)[1..] == text[1..] + rest && MatchLength(text + rest) == 0;
      ScanNoBrace(before + [text[0]], text[1..], rest, k);
      assert before + [text[0]] + text[1..] == before + text;
    }
  }

  /** A source without a placeholder always comes back, whatever tokens it spells. */
  lemma WithoutPlaceholders(source: string)
    requires NoBrace(source)
    ensures RestoreFrom(Flat(Protected(source, 0)), Found(source), 0) == source
  {
    assert source + "" == source;
    ScanNoBrace("", source, "", 0);
    RestoredExactlyWhenTokensStandAlone(source);
  }

  /**
   A source is lost when the text before its first placeholder contains the first token, or an ending that
   becomes one when the token is put after it.
   */
  lemma SpelledTokenIsLost(text: string, rest: string, at: nat)
    requires NoBrace(text) && rest != "" && MatchLength(rest) > 0
    requires at < |text| && IsPrefix(Token(0), (text + Token(0))[at..])
    ensures RestoreFrom(Flat(Protected(text + rest, 0)), Found(text + rest), 0) != text + rest
  {
    ScanNoBrace("", text, rest, 0);
    assert "" + text == text;
    RestoredExactlyWhenTokensStandAlone(text + rest);
  }
}
