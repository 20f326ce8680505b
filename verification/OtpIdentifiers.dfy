/** Canonical identifiers, over ASCII text. */
module OtpIdentifiers {
  import opened Prelude
  import opened OtpStore
  import opened Text

  predicate IsDigit(c: char) {
    '0' <= c <= '9'
  }

  /** What the address pattern allows besides the `@` and the dot. */
  predicate IsPlain(c: char) {
    !IsSpace(c) && c != '@'
  }

  predicate Plain(s: string) {
    forall k :: 0 <= k < |s| ==> IsPlain(s[k])
  }

  /** One to 64 plain characters, `@`, one to 255 plain ones, a dot, and two or more plain ones. */
  predicate IsAddress(s: string) {
    exists at, dot ::
      && 1 <= at <= 64 && at + 2 <= dot <= at + 256 && dot + 3 <= |s|
      && s[at] == '@' && s[dot] == '.' && Plain(s[..at]) && Plain(s[at + 1..])
  }

  function KeepDialled(s: string): string {
    if s == [] then [] else (if IsDigit(s[0]) || s[0] == '+' then [s[0]] else []) + KeepDialled(s[1..])
  }

  /** Behind a plus sign, and behind the country code 1 if there are ten of them without one. */
  function Prefixed(digits: string): string {
    if digits == "" then ""
    else if digits[0] == '+' then digits
    else if |digits| == 10 then "+1" + digits
    else "+" + digits
  }

  function ToE164(raw: string): string {
    Prefixed(KeepDialled(raw))
  }

  predicate IsE164(s: string) {
    9 <= |s| <= 16 && s[0] == '+' && '1' <= s[1] <= '9' && forall k :: 2 <= k < |s| ==> IsDigit(s[k])
  }

  /** The stored form of an email address or phone number; invalid ones have none. */
  function Normalize(channel: Channel, raw: string): Option<string> {
    var value := Trim(raw);
    if channel == Phone then
      var phone := ToE164(value);
      if IsE164(phone) then Some(phone) else None
    else
      var email := LowerAll(value);
      if |email| <= 254 && IsAddress(email) then Some(email) else None
  }

  lemma {:induction false} DialledFixed(s: string)
    requires forall k :: 0 <= k < |s| ==> IsDigit(s[k]) || s[k] == '+'
    ensures KeepDialled(s) == s
  {
    if s != [] {
      DialledFixed(s[1..]);
      assert s == [s[0]] + s[1..];
    }
  }

  lemma PhoneFixed(s: string)
    requires IsE164(s)
    ensures Trim(s) == s && ToE164(s) == s
  {
    TrimFixed(s);
    DialledFixed(s);
  }

  lemma EmailFixed(value: string)
    requires IsAddress(LowerAll(value))
    ensures Trim(LowerAll(value)) == LowerAll(value) && LowerAll(LowerAll(value)) == LowerAll(value)
  {
    AddressHasNoSpace(LowerAll(value));
    TrimFixed(LowerAll(value));
  }

  /** A canonical identifier is its own canonical form, so requests and confirmations in either form meet. */
  lemma NormalizeIdempotent(channel: Channel, raw: string)
    requires Normalize(channel, raw).Some?
    ensures Normalize(channel, Normalize(channel, raw).value) == Normalize(channel, raw)
  {
    if channel == Phone { PhoneFixed(Normalize(channel, raw).value); } else { EmailFixed(Trim(raw)); }
  }

  lemma AddressHasNoSpace(s: string)
    requires IsAddress(s)
    ensures forall k :: 0 <= k < |s| ==> !IsSpace(s[k])
  {
    var at, dot :| 1 <= at <= 64 && at + 2 <= dot <= at + 256 && dot + 3 <= |s|
      && s[at] == '@' && s[dot] == '.' && Plain(s[..at]) && Plain(s[at + 1..]);
    forall k | 0 <= k < |s| ensures !IsSpace(s[k]) {
      assert k < at ==> s[k] == s[..at][k];
      assert k > at ==> s[k] == s[at + 1..][k - at - 1];
    }
  }

  // What the canonical form is ---------------------------------------------------------------------------

  /** The pattern does not look at case. */
  lemma AddressIgnoresCase(s: string, t: string)
    requires SameButCase(s, t) && IsAddress(s)
    ensures IsAddress(t)
  {
    var at, dot :| 1 <= at <= 64 && at + 2 <= dot <= at + 256 && dot + 3 <= |s|
      && s[at] == '@' && s[dot] == '.' && Plain(s[..at]) && Plain(s[at + 1..]);
    forall k | 0 <= k < at ensures IsPlain(t[..at][k]) { assert IsPlain(s[..at][k]) && SameLetter(s[k], t[k]); }
    forall k | at < k < |t| ensures IsPlain(t[k]) {
      assert IsPlain(s[at + 1..][k - at - 1]) && SameLetter(s[k], t[k]);
    }
    assert SameLetter(s[at], t[at]) && SameLetter(s[dot], t[dot]);
  }

  /**
   * Between whitespace `p` and `q`, a text that itself neither begins nor ends
   * with whitespace has a canonical form exactly if it is an address of at most
   * 254 characters: the text without capitals that differs from it in case only.
   */
  lemma EmailIs(channel: Channel, p: string, address: string, q: string)
    requires channel != Phone
    requires (forall k :: 0 <= k < |p| ==> IsSpace(p[k])) && (forall k :: 0 <= k < |q| ==> IsSpace(q[k]))
    requires address != [] ==> !IsSpace(address[0]) && !IsSpace(address[|address| - 1])
    ensures var r := Normalize(channel, p + address + q);
      && (r.Some? <==> |address| <= 254 && IsAddress(address))
      && (r.Some? ==> SameButCase(address, r.value) && NoUpper(r.value))
  {
    TrimSkips(p, address, q);
    assert Trim(address) == address;
    LowerIs(address, []);
    assert SameButCase(LowerAll(address), address);
    if IsAddress(address) { AddressIgnoresCase(address, LowerAll(address)); }
    if IsAddress(LowerAll(address)) { AddressIgnoresCase(LowerAll(address), address); }
  }

  /** Addresses typed with other whitespace around them, or in another case, are one identifier. */
  lemma TypedAlike(channel: Channel, p: string, a: string, q: string, p': string, b: string, q': string)
    requires channel != Phone && SameButCase(a, b)
    requires (forall k :: 0 <= k < |p| ==> IsSpace(p[k])) && (forall k :: 0 <= k < |q| ==> IsSpace(q[k]))
    requires (forall k :: 0 <= k < |p'| ==> IsSpace(p'[k])) && (forall k :: 0 <= k < |q'| ==> IsSpace(q'[k]))
    ensures Normalize(channel, p + a + q) == Normalize(channel, p' + b + q')
  {
    TrimSkips(p, a, q);
    TrimSkips(p', b, q');
    TrimIgnoresCase(a, b);
    LowerIs(Trim(a), Trim(b));
  }

  lemma {:induction false} TrimIgnoresCase(a: string, b: string)
    requires SameButCase(a, b)
    ensures SameButCase(Trim(a), Trim(b))
  {
    if a != [] {
      assert SameLetter(a[0], b[0]) && SameLetter(a[|a| - 1], b[|a| - 1]);
      if IsSpace(a[0]) {
        TrimIgnoresCase(a[1..], b[1..]);
      } else if IsSpace(a[|a| - 1]) {
        TrimIgnoresCase(a[..|a| - 1], b[..|a| - 1]);
      }
    }
  }

  /** The digits of a text, in order. */
  function DigitsOf(s: string): string {
    if s == [] then [] else (if IsDigit(s[0]) then [s[0]] else []) + DigitsOf(s[1..])
  }

  predicate Dialled(c: char) {
    IsDigit(c) || c == '+'
  }

  /** The first digit or plus sign is a plus sign. */
  predicate LeadsWithPlus(s: string) {
    s != [] && if Dialled(s[0]) then s[0] == '+' else LeadsWithPlus(s[1..])
  }

  /** A plus sign after a digit or another plus sign. */
  predicate InnerPlus(s: string) {
    s != [] && if Dialled(s[0]) then '+' in s[1..] else InnerPlus(s[1..])
  }

  /**
   * A phone number's canonical form is a plus sign and its digits, after a 1 if
   * there are ten and no plus sign leads; it exists exactly for eight to fifteen
   * digits that do not begin with 0, with no plus sign among them.
   */
  lemma PhoneIs(raw: string)
    ensures var d := DigitsOf(raw);
      var full := if !LeadsWithPlus(raw) && |d| == 10 then "1" + d else d;
      Normalize(Phone, raw) == if !InnerPlus(raw) && 8 <= |full| <= 15 && full[0] != '0' then Some("+" + full) else None
  {
    var d := DigitsOf(raw);
    DialledTrimmed(raw);
    DigitsAre(raw);
    if InnerPlus(raw) {
      InnerPlusFails(raw);
    } else {
      KeptIs(raw);
      PrefixedIs(LeadsWithPlus(raw), d);
      FullIs(if !LeadsWithPlus(raw) && |d| == 10 then "1" + d else d, d);
    }
  }

  lemma DialledTrimmed(raw: string)
    ensures ToE164(Trim(raw)) == ToE164(raw)
  {
    var i, j := TrimIs(raw);
    KeptMiddle(raw[..i], raw[i..j], raw[j..]);
    assert raw == raw[..i] + raw[i..j] + raw[j..];
  }

  lemma InnerPlusFails(raw: string)
    requires InnerPlus(raw)
    ensures !IsE164(ToE164(raw))
  {
    KeptIs(raw);
    var kept := KeepDialled(raw);
    var k :| 0 <= k < |kept| - 1 && kept[1..][k] == '+';
    assert ("+1" + kept)[k + 3] == kept[k + 1] == '+' && ("+" + kept)[k + 2] == '+';
  }

  lemma PrefixedIs(lead: bool, d: string)
    requires forall c :: c in d ==> IsDigit(c)
    ensures var full := if !lead && |d| == 10 then "1" + d else d;
      Prefixed((if lead then "+" else "") + d) == if lead || d != "" then "+" + full else ""
  {
    assert "" + d == d;
    if d != "" { assert d[0] in d; }
    assert "+1" + d == "+" + ("1" + d);
  }

  lemma FullIs(full: string, d: string)
    requires (forall c :: c in d ==> IsDigit(c)) && (full == d || full == "1" + d)
    ensures IsE164("+" + full) <==> 8 <= |full| <= 15 && full[0] != '0'
  {
    assert forall k :: 0 <= k < |full| ==> IsDigit(full[k]);
    assert forall k :: 0 <= k < |full| ==> ("+" + full)[k + 1] == full[k];
  }

  lemma {:induction false} DigitsAre(s: string)
    ensures forall c :: c in DigitsOf(s) ==> IsDigit(c)
  {
    if s != [] { DigitsAre(s[1..]); }
  }

  lemma {:induction false} KeptJoin(a: string, b: string)
    ensures KeepDialled(a + b) == KeepDialled(a) + KeepDialled(b)
  {
    if a == [] {
      assert a + b == b;
    } else {
      assert (a + b)[1..] == a[1..] + b;
      KeptJoin(a[1..], b);
    }
  }

  lemma {:induction false} NothingKept(s: string)
    requires forall k :: 0 <= k < |s| ==> !Dialled(s[k])
    ensures KeepDialled(s) == []
  {
    if s != [] { NothingKept(s[1..]); }
  }

  lemma KeptMiddle(a: string, b: string, c: string)
    requires (forall k :: 0 <= k < |a| ==> !Dialled(a[k])) && (forall k :: 0 <= k < |c| ==> !Dialled(c[k]))
    ensures KeepDialled(a + b + c) == KeepDialled(b)
  {
    KeptJoin(a + b, c);
    KeptJoin(a, b);
    NothingKept(a);
    NothingKept(c);
  }

  lemma {:induction false} PlusKept(s: string)
    ensures '+' in s <==> '+' in KeepDialled(s)
    ensures '+' !in s ==> KeepDialled(s) == DigitsOf(s)
  {
    if s != [] {
      PlusKept(s[1..]);
      assert '+' in s <==> s[0] == '+' || '+' in s[1..];
    }
  }

  /** What is kept: the digits, behind the plus sign that leads them if there is no other. */
  lemma {:induction false} KeptIs(s: string)
    ensures var kept := KeepDialled(s);
      && (InnerPlus(s) <==> kept != [] && '+' in kept[1..])
      && (LeadsWithPlus(s) <==> kept != [] && kept[0] == '+')
      && (!InnerPlus(s) ==> kept == (if LeadsWithPlus(s) then "+" else "") + DigitsOf(s))
  {
    if s != [] {
      if Dialled(s[0]) {
        PlusKept(s[1..]);
        assert KeepDialled(s)[1..] == KeepDialled(s[1..]);
      } else {
        KeptIs(s[1..]);
        assert KeepDialled(s) == KeepDialled(s[1..]) && DigitsOf(s) == DigitsOf(s[1..]);
      }
    }
  }
}
