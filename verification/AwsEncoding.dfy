/** The canonical encodings of AWS Signature Version 4: percent-encoded text, path and query. */
module AwsEncoding {
  import opened Common
  import T = Text

  type Byte = b: int | 0 <= b < 256

  type Bytes = seq<Byte>

  const PERCENT: Byte := 37
  const AMPERSAND: Byte := 38
  const SLASH: Byte := 47
  const EQUALS: Byte := 61

  /** ALPHA / DIGIT / "-" / "." / "_" / "~", section 2.3 of RFC 3986. */
  predicate Unreserved(c: Byte) {
    65 <= c <= 90 || 97 <= c <= 122 || 48 <= c <= 57 || c == 95 || c == 45 || c == 46 || c == 126
  }

  function HexDigit(n: int): (d: Byte)
    requires 0 <= n < 16
  {
    if n < 10 then 48 + n else 55 + n
  }

  /** An upper-case escape, section 2.1 of RFC 3986. */
  function Escape(c: Byte): (e: Bytes) { [PERCENT, HexDigit(c / 16), HexDigit(c % 16)] }

  function Encoded(c: Byte): (e: Bytes) { if Unreserved(c) then [c] else Escape(c) }

  function Encode(s: Bytes): (e: Bytes) {
    if s == [] then [] else Encoded(s[0]) + Encode(s[1..])
  }

  // Decoding, as any reader of the signed URL does it.

  function HexValue(d: Byte): (v: Option<int>)
    ensures v.Some? ==> 0 <= v.value < 16
  {
    if 48 <= d <= 57 then Some(d - 48)
    else if 65 <= d <= 70 then Some(d - 55)
    else if 97 <= d <= 102 then Some(d - 87)
    else None
  }

  /** The first byte decoded and what is left; None when an escape is malformed. */
  function DecodeOne(e: Bytes): (r: Option<(Byte, Bytes)>)
    requires e != []
    ensures r.Some? ==> |r.value.1| < |e|
  {
    if e[0] != PERCENT then Some((e[0], e[1..]))
    else if |e| < 3 then None
    else
      var hi, lo := HexValue(e[1]), HexValue(e[2]);
      if hi.None? || lo.None? then None else Some((hi.value * 16 + lo.value, e[3..]))
  }

  function Decode(e: Bytes): (s: Option<Bytes>)
    decreases |e|
  {
    if e == [] then Some([])
    else match DecodeOne(e)
      case None => None
      case Some((c, rest)) => match Decode(rest) case None => None case Some(s) => Some([c] + s)
  }

  lemma EscapeReads(c: Byte)
    ensures HexValue(HexDigit(c / 16)) == Some(c / 16) && HexValue(HexDigit(c % 16)) == Some(c % 16)
    ensures c / 16 * 16 + c % 16 == c
  {}

  lemma DecodeOneEncoded(c: Byte, rest: Bytes)
    ensures DecodeOne(Encoded(c) + rest) == Some((c, rest))
  {}

  /** Percent-decoding the encoding gives the text back, for every byte string. */
  lemma {:induction false} RoundTrip(s: Bytes)
    ensures Decode(Encode(s)) == Some(s)
  {
    if s != [] {
      DecodeOneEncoded(s[0], Encode(s[1..]));
      RoundTrip(s[1..]);
      assert [s[0]] + s[1..] == s;
    }
  }

  lemma EncodeIsInjective(s: Bytes, t: Bytes)
    requires Encode(s) == Encode(t)
    ensures s == t
  {
    RoundTrip(s);
    RoundTrip(t);
  }

  /** Texts made of unreserved bytes, and of upper-case escapes of bytes that are not unreserved. */
  predicate Canonical(e: Bytes)
    decreases |e|
  {
    e == [] || (if e[0] == PERCENT
                then |e| >= 3 && UpperHex(e[1]) && UpperHex(e[2])
                     && !Unreserved(HexValue(e[1]).value * 16 + HexValue(e[2]).value) && Canonical(e[3..])
                else Unreserved(e[0]) && Canonical(e[1..]))
  }

  predicate UpperHex(d: Byte)
    ensures UpperHex(d) ==> HexValue(d).Some?
  {
    48 <= d <= 57 || 65 <= d <= 70
  }

  lemma {:induction false} EncodeIsCanonical(s: Bytes)
    ensures Canonical(Encode(s))
  {
    if s != [] {
      EncodeIsCanonical(s[1..]);
      EscapeReads(s[0]);
      var rest := Encode(s[1..]);
      if Unreserved(s[0]) {
        assert ([s[0]] + rest)[1..] == rest;
      } else {
        assert (Escape(s[0]) + rest)[3..] == rest;
      }
    }
  }

  lemma {:induction false} CanonicalIsEncoded(e: Bytes) returns (s: Bytes)
    requires Canonical(e)
    ensures Encode(s) == e
    decreases |e|
  {
    if e == [] {
      s := [];
    } else if e[0] == PERCENT {
      var tail := CanonicalIsEncoded(e[3..]);
      var c: Byte := HexValue(e[1]).value * 16 + HexValue(e[2]).value;
      assert e == [PERCENT, e[1], e[2]] + e[3..];
      assert HexDigit(c / 16) == e[1] && HexDigit(c % 16) == e[2];
      s := [c] + tail;
      assert s[1..] == tail;
    } else {
      var tail := CanonicalIsEncoded(e[1..]);
      assert e == [e[0]] + e[1..];
      s := [e[0]] + tail;
      assert s[1..] == tail;
    }
  }

  /** The encodings are exactly the canonical texts. */
  lemma CanonicalExactlyWhenEncoded(e: Bytes)
    ensures Canonical(e) <==> exists s :: Encode(s) == e
  {
    if Canonical(e) {
      var s := CanonicalIsEncoded(e);
      assert Encode(s) == e;
    }
    forall s | Encode(s) == e ensures Canonical(e) {
      EncodeIsCanonical(s);
    }
  }

  /** Only unreserved bytes and percent signs occur: no delimiter survives. */
  lemma {:induction false} EncodeAlphabet(s: Bytes)
    ensures forall c :: c in Encode(s) ==> Unreserved(c) || c == PERCENT
  {
    if s != [] {
      EncodeAlphabet(s[1..]);
    }
  }

  /** The letters, the digits and the four marks of section 2.3 of RFC 3986. */
  predicate IsPlain(c: Byte) {
    || 'A' <= c as char <= 'Z' || 'a' <= c as char <= 'z' || '0' <= c as char <= '9'
    || c as char == '-' || c as char == '.' || c as char == '_' || c as char == '~'
  }

  /** The encoding leaves a text alone if and only if it is made of those; any other text gets longer. */
  lemma {:induction false} EncodeKeepsExactly(s: Bytes)
    ensures |Encode(s)| >= |s|
    ensures Encode(s) == s <==> forall i :: 0 <= i < |s| ==> IsPlain(s[i])
    ensures |Encode(s)| == |s| <==> Encode(s) == s
  {
    if s != [] {
      EncodeKeepsExactly(s[1..]);
      assert s == [s[0]] + s[1..];
      assert Unreserved(s[0]) <==> IsPlain(s[0]);
      assert (forall i :: 0 <= i < |s| ==> IsPlain(s[i])) <==>
             IsPlain(s[0]) && forall i :: 0 <= i < |s[1..]| ==> IsPlain(s[1..][i]);
    }
  }

  lemma {:induction false} EncodeOneMore(s: Bytes, c: Byte)
    ensures Encode(s + [c]) == Encode(s) + Encoded(c)
  {
    if s == [] {
      assert [c][1..] == [];
      assert s + [c] == [c];
    } else {
      assert (s + [c])[1..] == s[1..] + [c];
      EncodeOneMore(s[1..], c);
    }
  }

  method AwsUriEncode(s: Bytes) returns (b: Bytes)
    ensures b == Encode(s)
  {
    b := [];
    for i := 0 to |s|
      invariant b == Encode(s[..i])
    {
      var c := s[i];
      if (c >= 65 && c <= 90) || (c >= 97 && c <= 122) || (c >= 48 && c <= 57)
         || c == 95 || c == 45 || c == 46 || c == 126 {
        b := b + [c];
      } else {
        b := b + [PERCENT, HexDigit(c / 16), HexDigit(c % 16)];
      }
      EncodeOneMore(s[..i], s[i]);
      assert s[..i + 1] == s[..i] + [s[i]];
    }
    assert s[..|s|] == s;
  }

  // Paths.

  function EncodeAll(segments: seq<Bytes>): (r: seq<Bytes>)
    ensures |r| == |segments| && forall i :: 0 <= i < |r| ==> r[i] == Encode(segments[i])
  {
    seq(|segments|, i requires 0 <= i < |segments| => Encode(segments[i]))
  }

  function Rooted(path: Bytes): (r: Bytes) { if T.HasPrefix(path, [SLASH]) then path else [SLASH] + path }

  function CanonicalUri(path: Bytes): (uri: Bytes) {
    if path == [] then [SLASH] else T.Join(EncodeAll(T.Split(Rooted(path), SLASH)), SLASH)
  }

  lemma NoSlashInside(segments: seq<Bytes>)
    ensures forall p :: p in EncodeAll(segments) ==> SLASH !in p
  {
    forall p | p in EncodeAll(segments) ensures SLASH !in p {
      var i :| 0 <= i < |segments| && EncodeAll(segments)[i] == p;
      EncodeAlphabet(segments[i]);
    }
  }

  lemma SplitRooted(path: Bytes)
    requires T.HasPrefix(path, [SLASH])
    ensures T.Split(path, SLASH) == [[]] + T.Split(path[1..], SLASH)
  {}

  /** The canonical path has the segments of the path, in order, each of which decodes to what it
      was; it starts with a slash. */
  lemma UriKeepsSegments(path: Bytes)
    ensures T.HasPrefix(CanonicalUri(path), [SLASH])
    ensures T.Split(CanonicalUri(path), SLASH) == EncodeAll(T.Split(Rooted(path), SLASH))
    ensures forall i :: 0 <= i < |T.Split(Rooted(path), SLASH)| ==>
              Decode(T.Split(CanonicalUri(path), SLASH)[i]) == Some(T.Split(Rooted(path), SLASH)[i])
  {
    var segments := T.Split(Rooted(path), SLASH);
    SplitRooted(Rooted(path));
    var encoded := EncodeAll(segments);
    NoSlashInside(segments);
    assert encoded[0] == [];
    T.SplitJoin(encoded, SLASH);
    if path == [] {
      T.SplitWithout<Byte>([], SLASH);
      assert segments == [[], []] && encoded == [[], []];
      assert T.Join(encoded, SLASH) == [SLASH];
    }
    forall i | 0 <= i < |segments| ensures Decode(encoded[i]) == Some(segments[i]) {
      RoundTrip(segments[i]);
    }
  }

  /** Different paths have different canonical forms, up to a missing leading slash. */
  lemma UriIdentifiesPath(p: Bytes, q: Bytes)
    requires CanonicalUri(p) == CanonicalUri(q)
    ensures Rooted(p) == Rooted(q)
  {
    UriKeepsSegments(p);
    UriKeepsSegments(q);
    var a, b := T.Split(Rooted(p), SLASH), T.Split(Rooted(q), SLASH);
    forall i | 0 <= i < |a| ensures a[i] == b[i] {
      assert Decode(T.Split(CanonicalUri(p), SLASH)[i]) == Some(a[i]);
      assert Decode(T.Split(CanonicalUri(q), SLASH)[i]) == Some(b[i]);
    }
    assert a == b;
    T.JoinSplit(Rooted(p), SLASH);
    T.JoinSplit(Rooted(q), SLASH);
  }

  method AwsCanonicalUri(path: Bytes) returns (out: Bytes)
    ensures out == CanonicalUri(path)
  {
    if path == [] { return [SLASH]; }
    var rooted := path;
    if !T.HasPrefix(rooted, [SLASH]) { rooted := [SLASH] + rooted; }
    var parts := T.Split(rooted, SLASH);
    var segments := new Bytes[|parts|](i requires 0 <= i < |parts| => parts[i]);
    for i := 0 to segments.Length
      invariant forall k :: 0 <= k < i ==> segments[k] == Encode(parts[k])
      invariant forall k :: i <= k < segments.Length ==> segments[k] == parts[k]
    {
      segments[i] := AwsUriEncode(segments[i]);
    }
    assert segments[..] == EncodeAll(parts);
    out := T.Join(segments[..], SLASH);
    UriKeepsSegments(path);
    if !T.HasPrefix(out, [SLASH]) { out := [SLASH] + out; }
  }

  // Queries.

  datatype Pair = Pair(key: Bytes, value: Bytes)

  function EncodePair(p: Pair): (e: Bytes) { Encode(p.key) + [EQUALS] + Encode(p.value) }

  function EncodePairs(pairs: seq<Pair>): (r: seq<Bytes>)
    ensures |r| == |pairs| && forall i :: 0 <= i < |r| ==> r[i] == EncodePair(pairs[i])
  {
    seq(|pairs|, i requires 0 <= i < |pairs| => EncodePair(pairs[i]))
  }

  function CanonicalQuery(pairs: seq<Pair>): (q: Bytes) { T.Join(EncodePairs(pairs), AMPERSAND) }

  /** Reading a query: cut at "&", which is 38, each part at its one "=", which is 61, and decode. */
  function ParsePair(part: Bytes): (p: Option<Pair>) {
    var sides := T.Split(part, 61);
    if |sides| != 2 then None
    else
      var key, value := Decode(sides[0]), Decode(sides[1]);
      if key.None? || value.None? then None else Some(Pair(key.value, value.value))
  }

  function ParsePairs(parts: seq<Bytes>): (r: Option<seq<Pair>>) {
    if parts == [] then Some([])
    else
      var first, rest := ParsePair(parts[0]), ParsePairs(parts[1..]);
      if first.None? || rest.None? then None else Some([first.value] + rest.value)
  }

  function ParseQuery(q: Bytes): (r: Option<seq<Pair>>) {
    if q == [] then Some([]) else ParsePairs(T.Split(q, 38))
  }

  lemma NoAmpersandInside(p: Pair)
    ensures AMPERSAND !in EncodePair(p)
  {
    EncodeAlphabet(p.key);
    EncodeAlphabet(p.value);
  }

  lemma PairReads(p: Pair)
    ensures ParsePair(EncodePair(p)) == Some(p)
  {
    EncodeAlphabet(p.key);
    EncodeAlphabet(p.value);
    T.SplitAcross(Encode(p.key), Encode(p.value), EQUALS);
    T.SplitWithout(Encode(p.key), EQUALS);
    T.SplitWithout(Encode(p.value), EQUALS);
    RoundTrip(p.key);
    RoundTrip(p.value);
  }

  lemma {:induction false} PairsRead(pairs: seq<Pair>)
    ensures ParsePairs(EncodePairs(pairs)) == Some(pairs)
  {
    if pairs != [] {
      PairReads(pairs[0]);
      PairsRead(pairs[1..]);
      assert EncodePairs(pairs)[1..] == EncodePairs(pairs[1..]);
      assert [pairs[0]] + pairs[1..] == pairs;
    }
  }

  /** The canonical query parses back to exactly its pairs, in order, whatever bytes they hold. */
  lemma QueryReads(pairs: seq<Pair>)
    ensures ParseQuery(CanonicalQuery(pairs)) == Some(pairs)
  {
    if pairs != [] {
      var parts := EncodePairs(pairs);
      forall p | p in parts ensures AMPERSAND !in p {
        var i :| 0 <= i < |parts| && parts[i] == p;
        NoAmpersandInside(pairs[i]);
      }
      T.SplitJoin(parts, AMPERSAND);
      PairsRead(pairs);
      T.SplitWithout<Byte>([], AMPERSAND);
      assert parts[0] != [];
    }
  }

  method BuildCanonicalQuery(pairs: seq<Pair>) returns (q: Bytes)
    ensures q == CanonicalQuery(pairs)
  {
    var parts := new Bytes[|pairs|](i => []);
    for i := 0 to |pairs|
      invariant forall k :: 0 <= k < i ==> parts[k] == EncodePair(pairs[k])
    {
      var key := AwsUriEncode(pairs[i].key);
      var value := AwsUriEncode(pairs[i].value);
      parts[i] := key + [EQUALS] + value;
    }
    assert parts[..] == EncodePairs(pairs);
    q := T.Join(parts[..], AMPERSAND);
  }
}
