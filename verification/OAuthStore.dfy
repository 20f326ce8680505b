/** Records of the authorization server and its in-memory store. */
module OAuthStore {
  import opened Prelude

  /** A digest-shaped string: the SHA-256 of exactly one preimage, or of none. */
  datatype Digest = Sha256(preimage: string) | NotADigest(text: string)

  datatype Client = Client(clientId: string, clientName: string, redirectUris: seq<string>)

  datatype AuthCode = AuthCode(codeHash: Digest, clientId: string, userKey: string, redirectUri: string,
                               codeChallenge: Digest, scope: string, expiresAt: int)

  datatype TokenKind = Access | Refresh

  datatype TokenRecord = TokenRecord(tokenHash: Digest, kind: TokenKind, clientId: string, userKey: string,
                                     scope: string, expiresAt: int)

  /** What the three maps hold. */
  datatype Stored = Stored(clients: map<string, Client>, codes: map<Digest, AuthCode>, tokens: map<Digest, TokenRecord>)

  /** A store call that changes something. */
  datatype Write =
    | PutClient(client: Client)
    | PutCode(authCode: AuthCode)
    | TakeCode(codeHash: Digest)
    | PutToken(token: TokenRecord)
    | TakeToken(tokenHash: Digest)

  function Lookup<K, V>(m: map<K, V>, k: K): Option<V> {
    if k in m then Some(m[k]) else None
  }

  /** Each method is one store call, hence one atomic step of the protocol in `OAuthProtocol`. */
  class InMemoryOAuthStore {
    var clients: map<string, Client>
    var codes: map<Digest, AuthCode>
    var tokens: map<Digest, TokenRecord>
    /** The calls so far, in order. */
    ghost var writes: seq<Write>

    ghost function View(): Stored
      reads this
    {
      Stored(clients, codes, tokens)
    }

    constructor ()
      ensures View() == Stored(map[], map[], map[]) && writes == []
    {
      clients, codes, tokens, writes := map[], map[], map[], [];
    }

    method PutClient(c: Client)
      modifies this`clients, this`writes
      ensures View() == old(View()).(clients := old(clients)[c.clientId := c])
      ensures writes == old(writes) + [Write.PutClient(c)]
    {
      clients := clients[c.clientId := c];
      writes := writes + [Write.PutClient(c)];
    }

    method GetClient(id: string) returns (c: Option<Client>)
      ensures c.Some? <==> id in clients
      ensures c.Some? ==> c.value == clients[id]
    {
      c := Lookup(clients, id);
    }

    method PutCode(c: AuthCode)
      modifies this`codes, this`writes
      ensures View() == old(View()).(codes := old(codes)[c.codeHash := c])
      ensures writes == old(writes) + [Write.PutCode(c)]
    {
      codes := codes[c.codeHash := c];
      writes := writes + [Write.PutCode(c)];
    }

    /** Reads and deletes in one step. */
    method TakeCode(h: Digest) returns (c: Option<AuthCode>)
      modifies this`codes, this`writes
      ensures c == Lookup(old(codes), h)
      ensures View() == old(View()).(codes := old(codes) - {h})
      ensures writes == old(writes) + [Write.TakeCode(h)]
    {
      c := Lookup(codes, h);
      codes := codes - {h};
      writes := writes + [Write.TakeCode(h)];
    }

    method PutToken(t: TokenRecord)
      modifies this`tokens, this`writes
      ensures View() == old(View()).(tokens := old(tokens)[t.tokenHash := t])
      ensures writes == old(writes) + [Write.PutToken(t)]
    {
      tokens := tokens[t.tokenHash := t];
      writes := writes + [Write.PutToken(t)];
    }

    method GetToken(h: Digest) returns (t: Option<TokenRecord>)
      ensures t.Some? <==> h in tokens
      ensures t.Some? ==> t.value == tokens[h]
    {
      t := Lookup(tokens, h);
    }

    /** Reads and deletes in one step. */
    method TakeToken(h: Digest) returns (t: Option<TokenRecord>)
      modifies this`tokens, this`writes
      ensures t == Lookup(old(tokens), h)
      ensures View() == old(View()).(tokens := old(tokens) - {h})
      ensures writes == old(writes) + [Write.TakeToken(h)]
    {
      t := Lookup(tokens, h);
      tokens := tokens - {h};
      writes := writes + [Write.TakeToken(h)];
    }
  }
}
