/** JavaScript's `trim` and `toLowerCase` on ASCII text. */
module Text {

  /** The ASCII whitespace: the blank, and tab to carriage return. */
  predicate IsSpace(c: char) {
    c == ' ' || '\t' <= c <= '\r'
  }

  function Trim(s: string): string {
    if s == [] then s
    else if IsSpace(s[0]) then Trim(s[1..])
    else if IsSpace(s[|s| - 1]) then Trim(s[..|s| - 1])
    else s
  }

  lemma TrimFixed(s: string)
    requires forall k :: 0 <= k < |s| ==> !IsSpace(s[k])
    ensures Trim(s) == s
  {
  }

  /** Trimming leaves the one part between whitespace that neither begins nor ends with any. */
  lemma {:induction false} TrimIs(s: string) returns (i: nat, j: nat)
    ensures i <= j <= |s| && Trim(s) == s[i..j]
    ensures forall k :: 0 <= k < |s| && !(i <= k < j) ==> IsSpace(s[k])
    ensures i < j ==> !IsSpace(s[i]) && !IsSpace(s[j - 1])
  {
    if s == [] {
      i, j := 0, 0;
    } else if IsSpace(s[0]) {
      var i', j' := TrimIs(s[1..]);
      i, j := i' + 1, j' + 1;
      assert s[1..][i'..j'] == s[i..j];
    } else if IsSpace(s[|s| - 1]) {
      i, j := TrimIs(s[..|s| - 1]);
      assert s[..|s| - 1][i..j] == s[i..j];
    } else {
      i, j := 0, |s|;
    }
  }

  /** Nothing is left of it once trimmed. */
  predicate IsBlank(s: string) {
    Trim(s) == []
  }

  lemma BlankIff(s: string)
    ensures IsBlank(s) <==> forall c :: c in s ==> IsSpace(c)
  {
    var i, j := TrimIs(s);
    if IsBlank(s) {
      forall c | c in s ensures IsSpace(c) {
        var k :| 0 <= k < |s| && s[k] == c;
      }
    } else {
      assert s[i] in s;
    }
  }

  lemma {:induction false} TrimSkips(p: string, s: string, q: string)
    requires (forall k :: 0 <= k < |p| ==> IsSpace(p[k])) && (forall k :: 0 <= k < |q| ==> IsSpace(q[k]))
    ensures Trim(p + s + q) == Trim(s)
    decreases |p| + |q|
  {
    var t := p + s + q;
    if p != [] {
      assert t[1..] == p[1..] + s + q;
      TrimSkips(p[1..], s, q);
    } else if q != [] {
      var m := |q| - 1;
      assert t[..|t| - 1] == p + s + q[..m];
      TrimSkips(p, s, q[..m]);
      if IsSpace(t[0]) { TrimFirst(t); }
    } else {
      assert t == s;
    }
  }

  /** Leading and trailing whitespace go in either order. */
  lemma {:induction false} TrimFirst(t: string)
    requires t != [] && IsSpace(t[|t| - 1])
    ensures Trim(t) == Trim(t[..|t| - 1])
  {
    if IsSpace(t[0]) && |t| > 1 {
      assert t[1..][..|t| - 2] == t[..|t| - 1][1..];
      TrimFirst(t[1..]);
    }
  }

  // Case ---------------------------------------------------------------------------------------------

  predicate IsUpper(c: char) {
    'A' <= c <= 'Z'
  }

  function Lower(c: char): char {
    if IsUpper(c) then c + ' ' else c
  }

  function LowerAll(s: string): string {
    seq(|s|, k requires 0 <= k < |s| => Lower(s[k]))
  }

  predicate NoUpper(s: string) {
    forall k :: 0 <= k < |s| ==> !IsUpper(s[k])
  }

  /** The same character, or the two cases of one letter, which are 32 apart in ASCII. */
  predicate SameLetter(c: char, d: char) {
    c == d || ('A' <= c <= 'Z' && d as int == c as int + 32) || ('A' <= d <= 'Z' && c as int == d as int + 32)
  }

  predicate SameButCase(s: string, t: string) {
    |s| == |t| && forall k :: 0 <= k < |s| ==> SameLetter(s[k], t[k])
  }

  /** Lower-casing gives the one text without capitals that differs in case only. */
  lemma LowerIs(s: string, t: string)
    ensures SameButCase(s, LowerAll(s)) && NoUpper(LowerAll(s))
    ensures SameButCase(s, t) && NoUpper(t) ==> t == LowerAll(s)
    ensures SameButCase(s, t) ==> LowerAll(s) == LowerAll(t)
  {
  }
}
