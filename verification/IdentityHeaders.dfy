/** The trusted identity headers: stripped from what clients send, written by the gateway, read by
    the services behind it. */
module IdentityHeaders {
  import T = Text

  const COMMA: char := ','

  datatype Identity = Identity(requestId: string, user: string, tenant: string, roles: seq<string>,
                               scopes: seq<string>, subject: string)

  type Header = map<string, seq<string>>

  const REQUEST_ID := "X-Request-Id"
  const USER_ID := "X-User-Id"
  const TENANT_ID := "X-Tenant-Id"
  const ROLES := "X-Roles"
  const SCOPES := "X-Scopes"
  const AUTH_SUBJECT := "X-Auth-Subject"

  const ALL_HEADERS: seq<string> := [USER_ID, TENANT_ID, ROLES, SCOPES, AUTH_SUBJECT, REQUEST_ID]

  function Get(h: Header, key: string): (value: string) { if key in h && h[key] != [] then h[key][0] else "" }

  // Comma-separated lists.

  function Tokens(parts: seq<string>, blank: char -> bool): (r: seq<string>) {
    if parts == [] then []
    else
      var p := T.Trim(parts[0], blank);
      (if p != "" then [p] else []) + Tokens(parts[1..], blank)
  }

  function SplitCsv(s: string, blank: char -> bool): (r: seq<string>) {
    if s == "" then [] else Tokens(T.Split(s, COMMA), blank)
  }

  function SplitEach(xs: seq<string>, blank: char -> bool): (r: seq<string>) {
    if xs == [] then [] else SplitCsv(xs[0], blank) + SplitEach(xs[1..], blank)
  }

  predicate Token(x: string, blank: char -> bool) { x != "" && T.Trimmed(x, blank) && COMMA !in x }

  lemma {:induction false} TokensConcat(a: seq<string>, b: seq<string>, blank: char -> bool)
    ensures Tokens(a + b, blank) == Tokens(a, blank) + Tokens(b, blank)
  {
    if a == [] {
      assert a + b == b;
    } else {
      assert (a + b)[1..] == a[1..] + b;
      TokensConcat(a[1..], b, blank);
    }
  }

  /** The empty text needs no special treatment but for speed. */
  lemma SplitCsvUniform(s: string, blank: char -> bool)
    ensures SplitCsv(s, blank) == Tokens(T.Split(s, COMMA), blank)
  {}

  /** Splitting a joined list splits each of its elements. */
  lemma {:induction false} SplitOfJoin(xs: seq<string>, blank: char -> bool)
    ensures SplitCsv(T.Join(xs, COMMA), blank) == SplitEach(xs, blank)
  {
    if |xs| > 1 {
      var rest := T.Join(xs[1..], COMMA);
      SplitOfJoin(xs[1..], blank);
      T.SplitAcross(xs[0], rest, COMMA);
      TokensConcat(T.Split(xs[0], COMMA), T.Split(rest, COMMA), blank);
      SplitCsvUniform(xs[0], blank);
      SplitCsvUniform(rest, blank);
      SplitCsvUniform(T.Join(xs, COMMA), blank);
    } else if |xs| == 1 {
      assert SplitEach(xs[1..], blank) == [];
    }
  }

  /** How a list is read: cut at its commas; a part without commas yields, trimmed, one element, or none
      if it is blank. */
  lemma CsvReads(a: string, b: string, part: string, blank: char -> bool)
    requires COMMA !in part
    ensures SplitCsv(a + "," + b, blank) == SplitCsv(a, blank) + SplitCsv(b, blank)
    ensures T.AllBlank(part, blank) ==> SplitCsv(part, blank) == []
    ensures !T.AllBlank(part, blank) ==> |SplitCsv(part, blank)| == 1 && T.TrimsTo(part, SplitCsv(part, blank)[0], blank)
  {
    var both := a + [COMMA] + b;
    assert a + "," + b == both;
    T.SplitAcross(a, b, COMMA);
    TokensConcat(T.Split(a, COMMA), T.Split(b, COMMA), blank);
    SplitCsvUniform(both, blank);
    SplitCsvUniform(a, blank);
    SplitCsvUniform(b, blank);
    T.SplitWithout(part, COMMA);
    SplitCsvUniform(part, blank);
    assert [part][1..] == [];
    T.TrimFacts(part, blank);
    T.TrimIsThere(part, blank);
  }

  lemma {:induction false} TokensAreTokens(parts: seq<string>, blank: char -> bool)
    requires forall p :: p in parts ==> COMMA !in p
    ensures forall x :: x in Tokens(parts, blank) ==> Token(x, blank)
  {
    if parts != [] {
      T.TrimFacts(parts[0], blank);
      TokensAreTokens(parts[1..], blank);
    }
  }

  lemma {:induction false} SplitEachKeepsTokens(xs: seq<string>, blank: char -> bool)
    requires forall x :: x in xs ==> Token(x, blank)
    ensures SplitEach(xs, blank) == xs
  {
    if xs != [] {
      assert xs[0] in xs;
      T.SplitWithout(xs[0], COMMA);
      T.TrimFacts(xs[0], blank);
      var one := [xs[0]];
      assert one[1..] == [] && Tokens(one, blank) == one;
      SplitEachKeepsTokens(xs[1..], blank);
      assert one + xs[1..] == xs;
    }
  }

  /** A list survives being joined and split again if and only if its elements are trimmed, not
      empty and free of commas. */
  lemma RecoveredExactly(xs: seq<string>, blank: char -> bool)
    ensures SplitCsv(T.Join(xs, COMMA), blank) == xs <==> forall x :: x in xs ==> Token(x, blank)
  {
    var joined := T.Join(xs, COMMA);
    SplitOfJoin(xs, blank);
    SplitCsvUniform(joined, blank);
    T.SplitParts(joined, COMMA);
    TokensAreTokens(T.Split(joined, COMMA), blank);
    if forall x :: x in xs ==> Token(x, blank) {
      SplitEachKeepsTokens(xs, blank);
    }
  }

  lemma {:induction false} TokensOneMore(parts: seq<string>, i: nat, blank: char -> bool)
    requires i < |parts|
    ensures Tokens(parts[..i + 1], blank) ==
            Tokens(parts[..i], blank) + (if T.Trim(parts[i], blank) != "" then [T.Trim(parts[i], blank)] else [])
    ensures |Tokens(parts[..i], blank)| <= i
  {
    assert parts[..i + 1] == parts[..i] + [parts[i]];
    TokensConcat(parts[..i], [parts[i]], blank);
    assert [parts[i]][1..] == [];
    if i > 0 { TokensOneMore(parts, i - 1, blank); }
  }

  /** The compaction in place: tokens are written over the front of the slice being read. */
  method Compact(parts: array<string>, blank: char -> bool) returns (n: nat)
    modifies parts
    ensures n <= parts.Length
    ensures parts[..n] == Tokens(old(parts[..]), blank)
  {
    ghost var was := parts[..];
    n := 0;
    for i := 0 to parts.Length
      invariant n <= i
      invariant parts[..n] == Tokens(was[..i], blank)
      invariant forall k :: i <= k < parts.Length ==> parts[k] == was[k]
    {
      TokensOneMore(was, i, blank);
      assert parts[i] == was[i];
      var p := T.Trim(parts[i], blank);
      if p != "" {
        parts[n] := p;
        n := n + 1;
      }
    }
    assert was[..parts.Length] == was;
  }

  method SplitCsvInPlace(s: string, blank: char -> bool) returns (out: seq<string>)
    ensures out == SplitCsv(s, blank)
  {
    if s == "" { return []; }
    var split := T.Split(s, COMMA);
    var parts := new string[|split|](i requires 0 <= i < |split| => split[i]);
    assert parts[..] == split;
    var n := Compact(parts, blank);
    out := parts[..n];
  }

  // Headers.

  /** FromHeaders. */
  function Read(h: Header, blank: char -> bool): (id: Identity) {
    Identity(Get(h, REQUEST_ID), Get(h, USER_ID), Get(h, TENANT_ID), SplitCsv(Get(h, ROLES), blank),
             SplitCsv(Get(h, SCOPES), blank), Get(h, AUTH_SUBJECT))
  }

  /** What a reader makes of an identity that was written. */
  function AsRead(id: Identity, blank: char -> bool): (r: Identity) {
    id.(roles := SplitEach(id.roles, blank), scopes := SplitEach(id.scopes, blank))
  }

  predicate SameElsewhere(h: Header, h': Header) {
    && (forall k :: k in h && k !in ALL_HEADERS ==> k in h' && h'[k] == h[k])
    && (forall k :: k in h' && k !in ALL_HEADERS ==> k in h)
  }

  predicate AllDiffer(k0: string, k1: string, k2: string, k3: string, k4: string, k5: string) {
    && k0 != k1 && k0 != k2 && k0 != k3 && k0 != k4 && k0 != k5
    && k1 != k2 && k1 != k3 && k1 != k4 && k1 != k5
    && k2 != k3 && k2 != k4 && k2 != k5
    && k3 != k4 && k3 != k5 && k4 != k5
  }

  /** The six names are different. */
  lemma HeadersDiffer()
    ensures AllDiffer(REQUEST_ID, USER_ID, TENANT_ID, ROLES, SCOPES, AUTH_SUBJECT)
  {}

  function Put(h: Header, key: string, value: string): (h': Header) {
    if value == "" then h else h[key := [value]]
  }

  /** The header after an identity was written; a field that is empty leaves whatever is there. */
  function Written(h: Header, id: Identity): (h': Header) {
    var h1 := Put(Put(Put(h, REQUEST_ID, id.requestId), USER_ID, id.user), TENANT_ID, id.tenant);
    Put(Put(Put(h1, ROLES, T.Join(id.roles, COMMA)), SCOPES, T.Join(id.scopes, COMMA)), AUTH_SUBJECT, id.subject)
  }

  function Over(value: string, before: string): (r: string) { if value == "" then before else value }

  lemma GetPut(h: Header, key: string, value: string)
    ensures Get(Put(h, key, value), key) == Over(value, Get(h, key))
    ensures forall other :: other != key ==> Get(Put(h, key, value), other) == Get(h, other)
  {}

  lemma SixPuts(h: Header, k0: string, k1: string, k2: string, k3: string, k4: string, k5: string,
                v0: string, v1: string, v2: string, v3: string, v4: string, v5: string)
    requires AllDiffer(k0, k1, k2, k3, k4, k5)
    ensures var h' := Put(Put(Put(Put(Put(Put(h, k0, v0), k1, v1), k2, v2), k3, v3), k4, v4), k5, v5);
            && Get(h', k0) == Over(v0, Get(h, k0)) && Get(h', k1) == Over(v1, Get(h, k1))
            && Get(h', k2) == Over(v2, Get(h, k2)) && Get(h', k3) == Over(v3, Get(h, k3))
            && Get(h', k4) == Over(v4, Get(h, k4)) && Get(h', k5) == Over(v5, Get(h, k5))
  {
    var h1 := Put(h, k0, v0);
    var h2 := Put(h1, k1, v1);
    var h3 := Put(h2, k2, v2);
    var h4 := Put(h3, k3, v3);
    var h5 := Put(h4, k4, v4);
    GetPut(h, k0, v0);
    GetPut(h1, k1, v1);
    GetPut(h2, k2, v2);
    GetPut(h3, k3, v3);
    GetPut(h4, k4, v4);
    GetPut(h5, k5, v5);
  }

  lemma WrittenReads(h: Header, id: Identity)
    ensures Get(Written(h, id), REQUEST_ID) == Over(id.requestId, Get(h, REQUEST_ID))
    ensures Get(Written(h, id), USER_ID) == Over(id.user, Get(h, USER_ID))
    ensures Get(Written(h, id), TENANT_ID) == Over(id.tenant, Get(h, TENANT_ID))
    ensures Get(Written(h, id), ROLES) == Over(T.Join(id.roles, COMMA), Get(h, ROLES))
    ensures Get(Written(h, id), SCOPES) == Over(T.Join(id.scopes, COMMA), Get(h, SCOPES))
    ensures Get(Written(h, id), AUTH_SUBJECT) == Over(id.subject, Get(h, AUTH_SUBJECT))
  {
    HeadersDiffer();
    SixPuts(h, REQUEST_ID, USER_ID, TENANT_ID, ROLES, SCOPES, AUTH_SUBJECT,
            id.requestId, id.user, id.tenant, T.Join(id.roles, COMMA), T.Join(id.scopes, COMMA), id.subject);
  }

  lemma PutKeepsElsewhere(h: Header, h': Header, key: string, value: string)
    requires SameElsewhere(h, h') && key in ALL_HEADERS
    ensures SameElsewhere(h, Put(h', key, value))
  {}

  lemma WrittenKeepsElsewhere(h: Header, id: Identity)
    ensures SameElsewhere(h, Written(h, id))
  {
    var h1 := Put(h, REQUEST_ID, id.requestId);
    var h2 := Put(h1, USER_ID, id.user);
    var h3 := Put(h2, TENANT_ID, id.tenant);
    var h4 := Put(h3, ROLES, T.Join(id.roles, COMMA));
    var h5 := Put(h4, SCOPES, T.Join(id.scopes, COMMA));
    PutKeepsElsewhere(h, h, REQUEST_ID, id.requestId);
    PutKeepsElsewhere(h, h1, USER_ID, id.user);
    PutKeepsElsewhere(h, h2, TENANT_ID, id.tenant);
    PutKeepsElsewhere(h, h3, ROLES, T.Join(id.roles, COMMA));
    PutKeepsElsewhere(h, h4, SCOPES, T.Join(id.scopes, COMMA));
    PutKeepsElsewhere(h, h5, AUTH_SUBJECT, id.subject);
  }

  /** The header has the value, alone, under the key; and nothing there if the value is empty. */
  predicate Bears(h: Header, key: string, value: string) {
    if value == "" then key !in h else key in h && h[key] == [value]
  }

  lemma PutBears(h: Header, key: string, value: string, other: string, v: string)
    ensures key !in h ==> Bears(Put(h, key, value), key, value)
    ensures other != key && Bears(h, other, v) ==> Bears(Put(h, key, value), other, v)
    ensures other != key && other !in h ==> other !in Put(h, key, value)
  {}

  /** An identity written into a header that has none of the six, but for its request id. */
  lemma WrittenBears(h: Header, id: Identity)
    requires forall k :: k in ALL_HEADERS && k != REQUEST_ID ==> k !in h
    ensures Bears(Written(h, id), USER_ID, id.user) && Bears(Written(h, id), TENANT_ID, id.tenant)
    ensures Bears(Written(h, id), ROLES, T.Join(id.roles, COMMA)) && Bears(Written(h, id), SCOPES, T.Join(id.scopes, COMMA))
    ensures Bears(Written(h, id), AUTH_SUBJECT, id.subject)
    ensures Bears(h, REQUEST_ID, id.requestId) ==> Bears(Written(h, id), REQUEST_ID, id.requestId)
  {
    HeadersDiffer();
    assert forall k :: k in [USER_ID, TENANT_ID, ROLES, SCOPES, AUTH_SUBJECT] ==> k in ALL_HEADERS && k != REQUEST_ID;
    SixBear(h, REQUEST_ID, USER_ID, TENANT_ID, ROLES, SCOPES, AUTH_SUBJECT,
            id.requestId, id.user, id.tenant, T.Join(id.roles, COMMA), T.Join(id.scopes, COMMA), id.subject);
  }

  lemma SixBear(h: Header, k0: string, k1: string, k2: string, k3: string, k4: string, k5: string,
                v0: string, v1: string, v2: string, v3: string, v4: string, v5: string)
    requires AllDiffer(k0, k1, k2, k3, k4, k5)
    requires k1 !in h && k2 !in h && k3 !in h && k4 !in h && k5 !in h
    ensures var h' := Put(Put(Put(Put(Put(Put(h, k0, v0), k1, v1), k2, v2), k3, v3), k4, v4), k5, v5);
            && (Bears(h, k0, v0) ==> Bears(h', k0, v0)) && Bears(h', k1, v1) && Bears(h', k2, v2) && Bears(h', k3, v3)
            && Bears(h', k4, v4) && Bears(h', k5, v5)
  {}

  class Request {
    var header: Header

    constructor (header: Header)
      ensures this.header == header
    {
      this.header := header;
    }

    method StripUntrusted()
      modifies this
      ensures forall k :: k in ALL_HEADERS ==> k !in header
      ensures SameElsewhere(old(header), header)
    {
      for i := 0 to |ALL_HEADERS|
        invariant forall k :: k in ALL_HEADERS[..i] ==> k !in header
        invariant SameElsewhere(old(header), header)
      {
        header := header - {ALL_HEADERS[i]};
      }
    }

    method SetNonEmpty(key: string, value: string)
      modifies this
      ensures header == Put(old(header), key, value)
    {
      if value != "" { header := header[key := [value]]; }
    }

    method Inject(id: Identity)
      modifies this
      ensures header == Written(old(header), id)
    {
      SetNonEmpty(REQUEST_ID, id.requestId);
      SetNonEmpty(USER_ID, id.user);
      SetNonEmpty(TENANT_ID, id.tenant);
      SetNonEmpty(ROLES, T.Join(id.roles, COMMA));
      SetNonEmpty(SCOPES, T.Join(id.scopes, COMMA));
      SetNonEmpty(AUTH_SUBJECT, id.subject);
    }

    /** What Authenticate does to the headers of a request it lets pass: strip, stamp a fresh request
        id, and inject the verified identity with it. What a service then reads depends on the
        verified identity and the request id alone, not on anything the client sent. */
    method Rewrite(verified: Identity, requestId: string, blank: char -> bool)
      modifies this
      ensures Read(header, blank) == AsRead(verified.(requestId := requestId), blank)
      ensures SameElsewhere(old(header), header)
      ensures "X-Request-Id" in header && header["X-Request-Id"] == [requestId]
      ensures Bears(header, "X-User-Id", verified.user) && Bears(header, "X-Tenant-Id", verified.tenant)
      ensures Bears(header, "X-Roles", T.Join(verified.roles, ','))
      ensures Bears(header, "X-Scopes", T.Join(verified.scopes, ','))
      ensures Bears(header, "X-Auth-Subject", verified.subject)
    {
      StripUntrusted();
      HeadersDiffer();
      header := header[REQUEST_ID := [requestId]];
      WrittenReads(header, verified.(requestId := requestId));
      WrittenKeepsElsewhere(header, verified.(requestId := requestId));
      WrittenBears(header, verified.(requestId := requestId));
      Inject(verified.(requestId := requestId));
      SplitOfJoin(verified.roles, blank);
      SplitOfJoin(verified.scopes, blank);
    }
  }

  /** A written identity is read back as it was if and only if its roles and scopes are trimmed, not
      empty and free of commas. */
  lemma ReadBackExactly(id: Identity, blank: char -> bool)
    ensures AsRead(id, blank) == id <==>
            (forall x :: x in id.roles ==> Token(x, blank)) && (forall x :: x in id.scopes ==> Token(x, blank))
  {
    RecoveredExactly(id.roles, blank);
    RecoveredExactly(id.scopes, blank);
    SplitOfJoin(id.roles, blank);
    SplitOfJoin(id.scopes, blank);
  }
}
