/** Pending one-time codes: limits, encodings and the store. */
module OtpStore {
  import opened Prelude

  const OTP_TTL_MS := 600000
  const OTP_RESEND_COOLDOWN_MS := 60000
  const OTP_MAX_ATTEMPTS := 5
  const OTP_MAX_SENDS_PER_WINDOW := 5
  const OTP_SEND_WINDOW_MS := 3600000
  const MAX_SAFE_INTEGER := 9007199254740991

  /** The keyed hash of a message under the service's one secret, injective in the message. */
  datatype Mac = Hmac(message: string)

  datatype Channel = Email | Phone | AnonymousEmail {
    function Name(): string {
      match this
      case Email => "email"
      case Phone => "phone"
      case AnonymousEmail => "email-anon"
    }
  }

  datatype OtpRecord = OtpRecord(codeHash: Mac, expiresAt: int, issuedAt: int, attempts: int, windowStart: int,
          sendCount: int)

  function KeyOf(channel: Channel, id: string): string {
    channel.Name() + "#" + id
  }

  function Message(channel: Channel, id: string, code: string): string {
    channel.Name() + "\n" + id + "\n" + code
  }

  /** Where each channel's codes are filed, and what is hashed of them. */
  lemma StoredForms(id: string, code: string)
    ensures KeyOf(Email, id) == "email#" + id && KeyOf(Phone, id) == "phone#" + id
    ensures KeyOf(AnonymousEmail, id) == "email-anon#" + id
    ensures forall c: Channel :: Message(c, id, code) == c.Name() + "\n" + id + "\n" + code
  {
    assert forall n: string :: n + "#" + id == n + ("#" + id);
  }

  predicate SixDigits(code: string) {
    |code| == 6 && forall k :: 0 <= k < 6 ==> '0' <= code[k] <= '9'
  }

  /** A text before the first `sep` is determined by the whole. */
  lemma SplitAtFirst(a: string, x: string, b: string, y: string, sep: char)
    requires sep !in a && sep !in b && a + [sep] + x == b + [sep] + y
    ensures a == b && x == y
  {
    var s, t := a + [sep] + x, b + [sep] + y;
    assert s[|a|] == sep && t[|b|] == sep;
    assert forall k :: 0 <= k < |a| ==> s[k] == a[k] != sep;
    assert forall k :: 0 <= k < |b| ==> t[k] == b[k] != sep;
    assert a == s[..|a|] && b == t[..|b|] && x == s[|a| + 1..] && y == t[|b| + 1..];
  }

  lemma KeyInjective(c: Channel, id: string, c': Channel, id': string)
    requires KeyOf(c, id) == KeyOf(c', id')
    ensures c == c' && id == id'
  {
    SplitAtFirst(c.Name(), id, c'.Name(), id', '#');
  }

  /** The hashed message determines channel, identifier and code, even for identifiers with line breaks. */
  lemma MessageInjective(c: Channel, id: string, code: string, c': Channel, id': string, code': string)
    requires |code| == |code'| && Message(c, id, code) == Message(c', id', code')
    ensures c == c' && id == id' && code == code'
  {
    assert Message(c, id, code) == c.Name() + ['\n'] + (id + "\n" + code);
    assert Message(c', id', code') == c'.Name() + ['\n'] + (id' + "\n" + code');
    SplitAtFirst(c.Name(), id + "\n" + code, c'.Name(), id' + "\n" + code', '\n');
    var s, t := id + "\n" + code, id' + "\n" + code';
    assert |id| == |id'|;
    assert id == s[..|id|] && id' == t[..|id'|] && code == s[|id| + 1..] && code' == t[|id'| + 1..];
  }

  class InMemoryOtpStore {
    var records: map<string, OtpRecord>

    constructor ()
      ensures records == map[]
    {
      records := map[];
    }

    method Get(key: string) returns (r: Option<OtpRecord>)
      ensures r.Some? <==> key in records
      ensures r.Some? ==> r.value == records[key]
    {
      r := if key in records then Some(records[key]) else None;
    }

    method Put(key: string, record: OtpRecord)
      modifies this
      ensures records == old(records)[key := record]
    {
      records := records[key := record];
    }

    /** One atomic step: counts an attempt on a live record, and reports a number over every limit for a missing one. */
    method RecordAttempt(key: string) returns (attempts: int)
      modifies this
      ensures key !in old(records) ==> attempts == MAX_SAFE_INTEGER && records == old(records)
      ensures key in old(records) ==>
                && attempts == old(records)[key].attempts + 1
                && records == old(records)[key := old(records)[key].(attempts := attempts)]
    {
      if key !in records {
        return MAX_SAFE_INTEGER;
      }
      attempts := records[key].attempts + 1;
      records := records[key := records[key].(attempts := attempts)];
    }

    method Delete(key: string)
      modifies this
      ensures records == old(records) - {key}
    {
      records := records - {key};
    }
  }
}
