/** Readable ids: slugs in normal form, and the least free suffix for a taken one. */
module Slug {
  import opened Text

  predicate IsWord(c: char) {
    'a' <= c <= 'z' || '0' <= c <= '9'
  }

  function WithoutQuotes(s: string): string {
    if s == [] then [] else (if s[0] == '\'' then [] else [s[0]]) + WithoutQuotes(s[1..])
  }

  function SkipOthers(s: string): (rest: string)
    ensures |rest| <= |s| && (rest != [] ==> IsWord(rest[0]))
  {
    if s == [] || IsWord(s[0]) then s else SkipOthers(s[1..])
  }

  /** Each run of other characters becomes one dash. */
  function Dashed(s: string): string
    decreases |s|
  {
    if s == [] then []
    else if IsWord(s[0]) then [s[0]] + Dashed(s[1..])
    else ['-'] + Dashed(SkipOthers(s[1..]))
  }

  function TrimLeft(s: string): string {
    if s != [] && s[0] == '-' then TrimLeft(s[1..]) else s
  }

  function TrimRight(s: string): (r: string)
    ensures r <= s && (r != [] ==> r[|r| - 1] != '-')
  {
    if s != [] && s[|s| - 1] == '-' then TrimRight(s[..|s| - 1]) else s
  }

  const UNTITLED := "untitled"

  /** The slug before its length is capped. */
  function Whole(input: string): string {
    TrimRight(TrimLeft(Dashed(WithoutQuotes(LowerAll(input)))))
  }

  function Capped(slug: string, maxLength: nat): string {
    TrimRight(if |slug| > maxLength then slug[..maxLength] else slug)
  }

  function Slugify(input: string, maxLength: nat): string {
    var slug := Capped(Whole(input), maxLength);
    if slug == [] then UNTITLED else slug
  }

  // Normal form -----------------------------------------------------------------------------------

  /** Letters and digits, with single dashes between them. */
  predicate Dashes(s: string) {
    && (forall i :: 0 <= i < |s| ==> IsWord(s[i]) || s[i] == '-')
    && (forall i :: 0 <= i < |s| - 1 ==> s[i] != '-' || s[i + 1] != '-')
  }

  predicate Normal(s: string) {
    s != [] && Dashes(s) && s[0] != '-' && s[|s| - 1] != '-'
  }

  lemma {:induction false} DashedIsDashes(s: string)
    ensures Dashes(Dashed(s)) && (s != [] && IsWord(s[0]) ==> Dashed(s) != [] && IsWord(Dashed(s)[0]))
    decreases |s|
  {
    if s != [] {
      DashedIsDashes(if IsWord(s[0]) then s[1..] else SkipOthers(s[1..]));
    }
  }

  lemma {:induction false} TrimLeftKeeps(s: string)
    requires Dashes(s)
    ensures Dashes(TrimLeft(s)) && (TrimLeft(s) != [] ==> TrimLeft(s)[0] != '-')
  {
    if s != [] && s[0] == '-' {
      assert forall i :: 0 <= i < |s| - 1 ==> s[1..][i] == s[i + 1];
      TrimLeftKeeps(s[1..]);
    }
  }

  /** A slug is empty or in normal form. */
  lemma WholeIsNormal(input: string)
    ensures Whole(input) == [] || Normal(Whole(input))
  {
    var s := WithoutQuotes(LowerAll(input));
    DashedIsDashes(s);
    TrimLeftKeeps(Dashed(s));
  }

  /** Cutting a slug short leaves it in normal form, and empty only if it is cut to nothing. */
  lemma CappedIsNormal(slug: string, maxLength: nat)
    requires slug == [] || Normal(slug)
    ensures var r := Capped(slug, maxLength);
      && |r| <= maxLength && (r == [] || Normal(r)) && (r == [] <==> slug == [] || maxLength == 0)
      && (|slug| <= maxLength ==> r == slug)
  {
    var cut := if |slug| > maxLength then slug[..maxLength] else slug;
    var r := TrimRight(cut);
    if cut != [] { TrimRightKeepsFirst(cut); }
    assert r == cut[..|r|];
  }

  lemma {:induction false} TrimRightKeepsFirst(s: string)
    requires s != [] && s[0] != '-'
    ensures TrimRight(s) != []
  {
    if |s| > 1 && s[|s| - 1] == '-' { TrimRightKeepsFirst(s[..|s| - 1]); }
  }

  /** Every slug is in normal form, no longer than the cap or the fallback. */
  lemma SlugIsNormal(input: string, maxLength: nat)
    ensures Normal(Slugify(input, maxLength))
    ensures |Slugify(input, maxLength)| <= if maxLength >= |UNTITLED| then maxLength else |UNTITLED|
  {
    WholeIsNormal(input);
    CappedIsNormal(Whole(input), maxLength);
    UntitledIsNormal();
  }

  lemma UntitledIsNormal()
    ensures Normal(UNTITLED)
  {
    assert forall i :: 0 <= i < |UNTITLED| ==> IsWord(UNTITLED[i]);
  }

  // What a slug keeps ---------------------------------------------------------------------------------

  /** The letters and digits, in order. */
  function Words(s: string): string {
    if s == [] then [] else (if IsWord(s[0]) then [s[0]] else []) + Words(s[1..])
  }

  lemma {:induction false} WordsWithoutQuotes(s: string)
    ensures Words(WithoutQuotes(s)) == Words(s)
  {
    if s != [] {
      WordsWithoutQuotes(s[1..]);
      if s[0] == '\'' { assert WithoutQuotes(s) == WithoutQuotes(s[1..]); }
      else { assert WithoutQuotes(s)[1..] == WithoutQuotes(s[1..]); }
    }
  }

  lemma {:induction false} WordsSkip(s: string)
    ensures Words(SkipOthers(s)) == Words(s)
  {
    if s != [] && !IsWord(s[0]) { WordsSkip(s[1..]); }
  }

  lemma {:induction false} WordsDashed(s: string)
    ensures Words(Dashed(s)) == Words(s)
    decreases |s|
  {
    if s != [] {
      var rest := if IsWord(s[0]) then s[1..] else SkipOthers(s[1..]);
      WordsSkip(s[1..]);
      WordsDashed(rest);
      assert Dashed(s)[1..] == Dashed(rest);
    }
  }

  lemma {:induction false} WordsTrimLeft(s: string)
    ensures Words(TrimLeft(s)) == Words(s)
  {
    if s != [] && s[0] == '-' { WordsTrimLeft(s[1..]); }
  }

  lemma {:induction false} WordsEnd(s: string)
    requires s != []
    ensures Words(s) == Words(s[..|s| - 1]) + if IsWord(s[|s| - 1]) then [s[|s| - 1]] else []
  {
    if |s| > 1 {
      WordsEnd(s[1..]);
      assert s[1..][..|s| - 2] == s[..|s| - 1][1..];
    }
  }

  lemma {:induction false} WordsTrimRight(s: string)
    ensures Words(TrimRight(s)) == Words(s)
  {
    if s != [] && s[|s| - 1] == '-' {
      WordsEnd(s);
      WordsTrimRight(s[..|s| - 1]);
    }
  }

  /** A letter of either case, or a digit. */
  predicate IsAlphanumeric(c: char) {
    'a' <= c <= 'z' || 'A' <= c <= 'Z' || '0' <= c <= '9'
  }

  function Alphanumerics(s: string): string {
    if s == [] then [] else (if IsAlphanumeric(s[0]) then [s[0]] else []) + Alphanumerics(s[1..])
  }

  lemma {:induction false} LowerWords(s: string)
    ensures Words(LowerAll(s)) == LowerAll(Alphanumerics(s))
  {
    if s != [] {
      LowerWords(s[1..]);
      assert LowerAll(s)[1..] == LowerAll(s[1..]);
      if IsAlphanumeric(s[0]) {
        assert Alphanumerics(s)[1..] == Alphanumerics(s[1..]);
        assert LowerAll(Alphanumerics(s)) == [Lower(s[0])] + LowerAll(Alphanumerics(s[1..]));
      }
    }
  }

  /** Before it is capped, a slug has exactly the letters and digits of the input, in order, without capitals. */
  lemma WordsKept(input: string)
    ensures SameButCase(Alphanumerics(input), Words(Whole(input))) && NoUpper(Words(Whole(input)))
  {
    var s := WithoutQuotes(LowerAll(input));
    WordsWithoutQuotes(LowerAll(input));
    WordsDashed(s);
    WordsTrimLeft(Dashed(s));
    WordsTrimRight(TrimLeft(Dashed(s)));
    LowerWords(input);
    LowerIs(Alphanumerics(input), []);
  }

  lemma {:induction false} QuotesJoin(a: string, b: string)
    ensures WithoutQuotes(a + "'" + b) == WithoutQuotes(a + b)
  {
    if a == [] {
      assert a + "'" + b == ['\''] + b && a + b == b;
    } else {
      QuotesJoin(a[1..], b);
      assert (a + "'" + b)[1..] == a[1..] + "'" + b && (a + b)[1..] == a[1..] + b;
    }
  }

  /** An apostrophe joins what it stands between: it leaves no trace in the slug. */
  lemma ApostrophesVanish(a: string, b: string, maxLength: nat)
    ensures Slugify(a + "'" + b, maxLength) == Slugify(a + b, maxLength)
  {
    QuotesJoin(LowerAll(a), LowerAll(b));
    assert LowerAll(a + "'" + b) == LowerAll(a) + "'" + LowerAll(b);
    assert LowerAll(a + b) == LowerAll(a) + LowerAll(b);
  }

  // Where the dashes are --------------------------------------------------------------------------------

  lemma {:induction false} WithoutQuotesJoin(a: string, b: string)
    ensures WithoutQuotes(a + b) == WithoutQuotes(a) + WithoutQuotes(b)
  {
    if a == [] {
      assert a + b == b;
    } else {
      WithoutQuotesJoin(a[1..], b);
      var first := if a[0] == '\'' then [] else [a[0]];
      assert (a + b)[0] == a[0] && (a + b)[1..] == a[1..] + b;
      assert first + (WithoutQuotes(a[1..]) + WithoutQuotes(b)) == (first + WithoutQuotes(a[1..])) + WithoutQuotes(b);
    }
  }

  lemma {:induction false} SkipJoin(x: string, c: char, y: string)
    requires !IsWord(c)
    ensures SkipOthers(x + [c] + y) == if SkipOthers(x) == [] then SkipOthers(y) else SkipOthers(x) + [c] + y
  {
    if x == [] {
      assert x + [c] + y == [c] + y;
      assert ([c] + y)[1..] == y;
    } else if !IsWord(x[0]) {
      assert (x + [c] + y)[1..] == x[1..] + [c] + y;
      SkipJoin(x[1..], c, y);
    }
  }

  lemma {:induction false} TrimRightJoin(a: string, b: string)
    requires TrimRight(b) != []
    ensures TrimRight(a + b) == a + TrimRight(b)
  {
    if b[|b| - 1] == '-' {
      assert (a + b)[..|a + b| - 1] == a + b[..|b| - 1];
      TrimRightJoin(a, b[..|b| - 1]);
    }
  }

  lemma WordFirst(s: string)
    requires s != [] && IsWord(s[0])
    ensures TrimRight(Dashed(s)) == [s[0]] + TrimRight(Dashed(s[1..]))
  {
    var rest := Dashed(s[1..]);
    if TrimRight(rest) == [] {
      OnlyDashes([s[0]], rest);
    } else {
      TrimRightJoin([s[0]], rest);
    }
  }

  lemma {:induction false} OnlyDashes(a: string, b: string)
    requires TrimRight(b) == []
    ensures TrimRight(a + b) == TrimRight(a)
  {
    if b == [] {
      assert a + b == a;
    } else {
      assert (a + b)[..|a + b| - 1] == a + b[..|b| - 1];
      OnlyDashes(a, b[..|b| - 1]);
    }
  }

  lemma Prepend(c: char, a: string, b: string)
    ensures [c] + (a + "-" + b) == [c] + a + "-" + b
  {
  }

  lemma JoinShifts(x: string, c: char, y: string)
    requires x != []
    ensures (x + [c] + y)[0] == x[0] && (x + [c] + y)[1..] == x[1..] + [c] + y
  {
  }

  /** A separator leaves one dash, after what stands before it and before the next letter or digit. */
  lemma {:induction false} DashedJoin(x: string, c: char, y: string)
    requires !IsWord(c)
    ensures Dashed(x + [c] + y) == TrimRight(Dashed(x)) + "-" + Dashed(SkipOthers(y))
    decreases |x|
  {
    if x == [] {
      assert x + [c] + y == [c] + y && ([c] + y)[1..] == y;
      assert TrimRight(Dashed(x)) == [];
    } else {
      JoinShifts(x, c, y);
      if IsWord(x[0]) {
        DashedJoin(x[1..], c, y);
        WordFirst(x);
        Prepend(x[0], TrimRight(Dashed(x[1..])), Dashed(SkipOthers(y)));
      } else {
        SkipJoin(x[1..], c, y);
        var x' := SkipOthers(x[1..]);
        DashFirst(x);
        if x' != [] {
          DashedJoin(x', c, y);
          Prepend('-', TrimRight(Dashed(x')), Dashed(SkipOthers(y)));
        }
      }
    }
  }

  lemma DashFirst(x: string)
    requires x != [] && !IsWord(x[0])
    ensures var x' := SkipOthers(x[1..]);
      TrimRight(Dashed(x)) == if x' == [] then [] else ['-'] + TrimRight(Dashed(x'))
  {
    var x' := SkipOthers(x[1..]);
    if x' == [] {
      assert Dashed(x) == ['-'] && ['-'][..0] == [];
    } else {
      WordFirst(x');
      TrimRightJoin(['-'], Dashed(x'));
    }
  }

  lemma {:induction false} TrimLeftDashed(y: string)
    ensures TrimLeft(Dashed(y)) == Dashed(SkipOthers(y))
    decreases |y|
  {
    if y != [] && !IsWord(y[0]) {
      assert Dashed(y)[1..] == Dashed(SkipOthers(y[1..]));
      StartsWithWord(SkipOthers(y[1..]));
    } else {
      StartsWithWord(y);
    }
  }

  lemma StartsWithWord(s: string)
    requires s != [] ==> IsWord(s[0])
    ensures TrimLeft(Dashed(s)) == Dashed(s) && (s != [] ==> TrimRight(Dashed(s)) != [])
  {
    if s != [] { WordFirst(s); }
  }

  lemma {:induction false} TrimsCommute(s: string)
    ensures TrimLeft(TrimRight(s)) == TrimRight(TrimLeft(s))
  {
    if s != [] && s[0] == '-' {
      TrimsCommute(s[1..]);
      assert s == ['-'] + s[1..];
      if TrimRight(s[1..]) == [] {
        OnlyDashes(['-'], s[1..]);
        AllDashes(s[1..]);
        assert TrimRight("-") == [] by { assert "-"[..0] == []; }
      } else {
        TrimRightJoin(['-'], s[1..]);
      }
    } else if TrimRight(s) != [] {
      assert TrimRight(s)[0] == s[0];
    }
  }

  lemma {:induction false} AllDashes(s: string)
    requires TrimRight(s) == []
    ensures TrimRight(TrimLeft(s)) == []
  {
    if s != [] && s[0] == '-' {
      AllDashesRest(s);
      AllDashes(s[1..]);
    }
  }

  lemma {:induction false} AllDashesRest(s: string)
    requires s != [] && TrimRight(s) == []
    ensures TrimRight(s[1..]) == []
  {
    if |s| > 1 {
      AllDashesRest(s[..|s| - 1]);
      assert s[1..][..|s| - 2] == s[..|s| - 1][1..];
    }
  }

  /**
   * A character that is no letter, digit or apostrophe separates: the slug of the
   * whole is the slugs of the two parts with one dash between them, or the one
   * that is not empty.
   */
  lemma SlugOfParts(a: string, c: char, b: string)
    requires !IsAlphanumeric(c) && c != '\''
    ensures Whole(a + [c] + b) ==
      if Whole(a) == [] then Whole(b) else if Whole(b) == [] then Whole(a) else Whole(a) + "-" + Whole(b)
  {
    var x, y := WithoutQuotes(LowerAll(a)), WithoutQuotes(LowerAll(b));
    assert LowerAll(a + [c] + b) == LowerAll(a) + [c] + LowerAll(b);
    WithoutQuotesJoin(LowerAll(a) + [c], LowerAll(b));
    WithoutQuotesJoin(LowerAll(a), [c]);
    assert WithoutQuotes([c]) == [c];
    DashedJoin(x, c, y);
    TrimsCommute(Dashed(x));
    TrimLeftDashed(y);
    PartsTrimmed(TrimRight(Dashed(x)), Dashed(SkipOthers(y)));
  }

  lemma PartsTrimmed(u: string, v: string)
    requires u == [] || u[|u| - 1] != '-'
    requires v == [] || v[0] != '-'
    ensures var l, r := TrimLeft(u), TrimRight(v);
      TrimRight(TrimLeft(u + "-" + v)) == if l == [] then r else if r == [] then l else l + "-" + r
  {
    assert u + "-" + v == u + ("-" + v);
    TrimLeftJoin(u, "-" + v);
    var l := TrimLeft(u);
    if l == [] {
      assert ("-" + v)[1..] == v;
    } else {
      LastStays(u);
      EndTrimmed(l, v);
    }
  }

  lemma EndTrimmed(l: string, v: string)
    requires TrimRight(l) == l
    ensures TrimRight(l + ("-" + v)) == if TrimRight(v) == [] then l else l + "-" + TrimRight(v)
  {
    if TrimRight(v) == [] {
      assert TrimRight("-") == [] by { assert "-"[..0] == []; }
      OnlyDashes("-", v);
      OnlyDashes(l, "-" + v);
    } else {
      TrimRightJoin("-", v);
      TrimRightJoin(l, "-" + v);
      assert l + ("-" + TrimRight(v)) == l + "-" + TrimRight(v);
    }
  }

  lemma {:induction false} TrimLeftJoin(a: string, b: string)
    ensures TrimLeft(a + b) == if TrimLeft(a) == [] then TrimLeft(b) else TrimLeft(a) + b
  {
    if a == [] {
      assert a + b == b;
    } else if a[0] == '-' {
      assert (a + b)[1..] == a[1..] + b;
      TrimLeftJoin(a[1..], b);
    }
  }

  lemma {:induction false} LastStays(u: string)
    requires TrimLeft(u) != [] && u[|u| - 1] != '-'
    ensures TrimRight(TrimLeft(u)) == TrimLeft(u)
  {
    if u[0] == '-' { LastStays(u[1..]); }
  }

  /** A text of letters, digits and nothing else is its own slug, without capitals. */
  lemma SlugOfWord(s: string)
    requires forall k :: 0 <= k < |s| ==> IsAlphanumeric(s[k])
    ensures SameButCase(s, Whole(s)) && NoUpper(Whole(s))
  {
    var low := LowerAll(s);
    LowerIs(s, []);
    assert forall k :: 0 <= k < |low| ==> IsWord(low[k]) by {
      forall k | 0 <= k < |low| ensures IsWord(low[k]) { assert IsAlphanumeric(s[k]); }
    }
    if s != [] {
      assert Normal(low);
      NoQuotes(low);
      DashedStays(low);
    }
  }

  /** A slug over the cap is cut there, and loses the one dash the cut may leave at its end. */
  lemma CapIs(input: string, maxLength: nat)
    requires HasWord(input) && maxLength > 0
    ensures var whole := Whole(input);
      Slugify(input, maxLength) ==
        if |whole| <= maxLength then whole
        else if whole[maxLength - 1] == '-' then whole[..maxLength - 1]
        else whole[..maxLength]
  {
    var whole := Whole(input);
    WholeIsNormal(input);
    WholeIsEmptyIff(input);
    CappedIsNormal(whole, maxLength);
    if |whole| > maxLength && whole[maxLength - 1] == '-' {
      var cut, shorter := whole[..maxLength], whole[..maxLength - 1];
      assert cut[..maxLength - 1] == shorter && maxLength > 1;
      assert shorter[maxLength - 2] == whole[maxLength - 2] != '-';
      assert TrimRight(shorter) == shorter;
    }
  }

  // Idempotence -------------------------------------------------------------------------------------

  lemma {:induction false} NoQuotes(s: string)
    requires forall i :: 0 <= i < |s| ==> s[i] != '\''
    ensures WithoutQuotes(s) == s
  {
    if s != [] {
      NoQuotes(s[1..]);
      assert s == [s[0]] + s[1..];
    }
  }

  lemma {:induction false} DashedStays(s: string)
    requires Dashes(s)
    ensures Dashed(s) == s
    decreases |s|
  {
    if s != [] {
      assert forall i :: 0 <= i < |s| - 1 ==> s[1..][i] == s[i + 1];
      DashedStays(s[1..]);
      assert s == [s[0]] + s[1..];
      if !IsWord(s[0]) {
        assert SkipOthers(s[1..]) == s[1..];
      }
    }
  }

  lemma DashesAreLower(s: string)
    requires Dashes(s)
    ensures LowerAll(s) == s && WithoutQuotes(s) == s
  {
    forall i | 0 <= i < |s| ensures !IsUpper(s[i]) && s[i] != '\'' { assert IsWord(s[i]) || s[i] == '-'; }
    LowerIs(s, s);
    NoQuotes(s);
  }

  lemma NothingTrimmed(s: string)
    requires Normal(s)
    ensures TrimRight(TrimLeft(s)) == s
  {
  }

  /** A slug in normal form is its own slug. */
  lemma NormalStays(s: string)
    requires Normal(s)
    ensures Whole(s) == s
  {
    DashesAreLower(s);
    DashedStays(s);
    NothingTrimmed(s);
  }

  predicate HasWord(input: string) {
    exists i :: 0 <= i < |input| && IsAlphanumeric(input[i])
  }

  lemma {:induction false} QuotesHaveNoWord(s: string)
    ensures (exists c :: c in WithoutQuotes(s) && IsWord(c)) <==> exists c :: c in s && IsWord(c)
  {
    if s != [] {
      QuotesHaveNoWord(s[1..]);
      assert s == [s[0]] + s[1..];
    }
  }

  lemma {:induction false} SkipKeepsWords(s: string)
    ensures (exists c :: c in SkipOthers(s) && IsWord(c)) <==> exists c :: c in s && IsWord(c)
  {
    if s != [] && !IsWord(s[0]) {
      SkipKeepsWords(s[1..]);
      assert s == [s[0]] + s[1..];
    }
  }

  lemma {:induction false} DashedKeepsWords(s: string)
    ensures (exists c :: c in Dashed(s) && IsWord(c)) <==> exists c :: c in s && IsWord(c)
    decreases |s|
  {
    if s != [] {
      assert s == [s[0]] + s[1..];
      if IsWord(s[0]) {
        assert s[0] in Dashed(s) && s[0] in s;
      } else {
        SkipKeepsWords(s[1..]);
        DashedKeepsWords(SkipOthers(s[1..]));
      }
    }
  }

  lemma {:induction false} TrimLeftKeepsWords(s: string)
    ensures (exists c :: c in TrimLeft(s) && IsWord(c)) <==> exists c :: c in s && IsWord(c)
  {
    if s != [] && s[0] == '-' {
      TrimLeftKeepsWords(s[1..]);
      assert s == [s[0]] + s[1..];
    }
  }

  /** The slug is empty exactly when the input has no letter or digit; then the fallback stands for it. */
  lemma WholeIsEmptyIff(input: string)
    ensures Whole(input) == [] <==> !HasWord(input)
    ensures !HasWord(input) ==> forall maxLength: nat :: Slugify(input, maxLength) == "untitled"
  {
    var low := LowerAll(input);
    var s := WithoutQuotes(low);
    QuotesHaveNoWord(low);
    DashedKeepsWords(s);
    TrimLeftKeepsWords(Dashed(s));
    DashedIsDashes(s);
    TrimLeftKeeps(Dashed(s));
    var t := TrimLeft(Dashed(s));
    if t != [] {
      TrimRightKeepsFirst(t);
      assert t[0] in t && IsWord(t[0]);
    }
    if HasWord(input) {
      var i :| 0 <= i < |input| && IsAlphanumeric(input[i]);
      assert low[i] in low && IsWord(low[i]);
    } else {
      forall c | c in low ensures !IsWord(c) { var i :| 0 <= i < |low| && low[i] == c; }
    }
  }

  /**
   * Making a slug of a slug changes nothing exactly when the cap leaves room for
   * the fallback, or is zero, or the fallback was not needed.
   */
  lemma SlugifyIdempotentIff(input: string, maxLength: nat)
    ensures Slugify(Slugify(input, maxLength), maxLength) == Slugify(input, maxLength) <==>
      maxLength >= |UNTITLED| || maxLength == 0 || HasWord(input)
  {
    var slug := Slugify(input, maxLength);
    SlugIsNormal(input, maxLength);
    NormalStays(slug);
    WholeIsNormal(input);
    WholeIsEmptyIff(input);
    CappedIsNormal(Whole(input), maxLength);
    CappedIsNormal(slug, maxLength);
  }

  // Unique slugs ----------------------------------------------------------------------------------------

  function Decimal(n: nat): string {
    if n < 10 then [n as char + '0'] else Decimal(n / 10) + [(n % 10) as char + '0']
  }

  lemma {:induction false} DecimalInjective(m: nat, n: nat)
    ensures Decimal(m) == Decimal(n) ==> m == n
  {
    DecimalNotEmpty(m);
    DecimalNotEmpty(n);
    if Decimal(m) == Decimal(n) {
      assert Decimal(m)[|Decimal(m)| - 1] == Decimal(n)[|Decimal(n)| - 1];
      if m >= 10 && n >= 10 {
        assert Decimal(m)[..|Decimal(m)| - 1] == Decimal(m / 10);
        assert Decimal(n)[..|Decimal(n)| - 1] == Decimal(n / 10);
        DecimalInjective(m / 10, n / 10);
      }
    }
  }

  lemma {:induction false} DecimalNotEmpty(n: nat)
    ensures Decimal(n) != [] && (n >= 10 ==> |Decimal(n)| > 1)
    ensures forall i :: 0 <= i < |Decimal(n)| ==> '0' <= Decimal(n)[i] <= '9'
  {
    if n >= 10 { DecimalNotEmpty(n / 10); }
  }

  /** The number a text of digits writes in base ten. */
  function Number(digits: string): nat
    requires forall i :: 0 <= i < |digits| ==> '0' <= digits[i] <= '9'
  {
    if digits == [] then 0
    else 10 * Number(digits[..|digits| - 1]) + (digits[|digits| - 1] - '0') as nat
  }

  /** A number's decimal form writes that number, without leading zeros. */
  lemma {:induction false} DecimalIs(n: nat)
    ensures forall i :: 0 <= i < |Decimal(n)| ==> '0' <= Decimal(n)[i] <= '9'
    ensures Number(Decimal(n)) == n && Decimal(n) != [] && (n > 0 ==> Decimal(n)[0] != '0')
  {
    DecimalNotEmpty(n);
    if n >= 10 {
      DecimalIs(n / 10);
      assert Decimal(n)[..|Decimal(n)| - 1] == Decimal(n / 10);
    } else {
      assert Number([]) == 0;
      assert Decimal(n)[..0] == [];
    }
  }

  function Candidate(base: string, n: nat): string {
    base + "-" + Decimal(n)
  }

  lemma CandidatesDiffer(base: string, m: nat, n: nat)
    ensures Candidate(base, m) != base
    ensures Candidate(base, m) == Candidate(base, n) ==> m == n
  {
    DecimalInjective(m, n);
    assert Candidate(base, m)[|base| + 1..] == Decimal(m);
    assert Candidate(base, n)[|base| + 1..] == Decimal(n);
    assert |Candidate(base, m)| > |base|;
  }

  /** The base and its suffixes from 2 up to but not including `n`. */
  function Tried(base: string, n: nat): set<string>
    requires n >= 2
  {
    {base} + set m: nat | 2 <= m < n :: Candidate(base, m)
  }

  lemma {:induction false} TriedAreMany(base: string, n: nat)
    requires n >= 2
    ensures |Tried(base, n)| == n - 1
  {
    if n == 2 {
      assert Tried(base, n) == {base};
    } else {
      TriedAreMany(base, n - 1);
      assert Tried(base, n) == Tried(base, n - 1) + {Candidate(base, n - 1)};
      CandidatesDiffer(base, n - 1, 0);
      forall m: nat | 2 <= m < n - 1
        ensures Candidate(base, m) != Candidate(base, n - 1)
      {
        CandidatesDiffer(base, m, n - 1);
      }
    }
  }

  lemma TriedAreTaken(base: string, n: nat, taken: set<string>)
    requires n >= 2 && Tried(base, n) <= taken
    ensures n <= |taken| + 1
  {
    TriedAreMany(base, n);
    SubsetIsSmaller(Tried(base, n), taken);
  }

  lemma SubsetIsSmaller(a: set<string>, b: set<string>)
    requires a <= b
    ensures |a| <= |b|
  {
    assert b == a + (b - a);
  }

  lemma SuffixIsNormal(base: string, n: nat)
    requires Normal(base)
    ensures Normal(Candidate(base, n))
  {
    DecimalNotEmpty(n);
    var c := Candidate(base, n);
    assert forall i :: 0 <= i < |base| ==> c[i] == base[i];
    assert forall i :: |base| < i < |c| ==> c[i] == Decimal(n)[i - |base| - 1];
  }

  /** The base if it is free, else the least free suffix, at most one more than there are slugs taken. */
  method UniqueSlug(title: string, taken: set<string>) returns (slug: string, n: nat)
    ensures slug !in taken && Normal(slug)
    ensures var base := Slugify(title, 60);
      if base !in taken then slug == base
      else 2 <= n <= |taken| + 1 && slug == base + "-" + Decimal(n) && forall m: nat :: 2 <= m < n ==>
        base + "-" + Decimal(m) in taken
  {
    var base := Slugify(title, 60);
    SlugIsNormal(title, 60);
    n := 2;
    if base !in taken { return base, n; }
    TriedAreTaken(base, n, taken);
    while Candidate(base, n) in taken
      invariant 2 <= n <= |taken| + 1 && Tried(base, n) <= taken
      decreases |taken| - n
    {
      assert Tried(base, n + 1) == Tried(base, n) + {Candidate(base, n)};
      TriedAreTaken(base, n + 1, taken);
      n := n + 1;
    }
    SuffixIsNormal(base, n);
    forall m: nat | 2 <= m < n ensures base + "-" + Decimal(m) in taken { assert Candidate(base, m) in Tried(base, n); }
    slug := Candidate(base, n);
  }
}
