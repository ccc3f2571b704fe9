/** Which object a presigned URL names. It is made of the same text as the URL that the client stores
    the object with, but percent-encoded; both are read in the same way. Texts are bytes here. */
module PresignedPaths {
  import opened Common
  import opened StoredPaths
  import T = Text
  import A = AwsEncoding

  predicate IsBytes(s: string) { forall i :: 0 <= i < |s| ==> s[i] as int < 256 }

  function BytesOf(s: string): (b: A.Bytes)
    requires IsBytes(s)
  {
    seq(|s|, i requires 0 <= i < |s| => s[i] as int)
  }

  function TextOf(b: A.Bytes): (s: string) { seq(|b|, i requires 0 <= i < |b| => b[i] as char) }

  lemma SameText(s: string)
    requires IsBytes(s)
    ensures TextOf(BytesOf(s)) == s
  {}

  /** The path of a key in its bucket. */
  function ObjectPath(bucket: string, key: string): (path: string) { "/" + bucket + "/" + TrimSlash(key) }

  /** The path that the presigned URL of a key addresses. */
  function PresignedPath(bucket: string, key: string): (path: Option<string>)
    requires IsBytes(ObjectPath(bucket, key))
  {
    Addressed(TextOf(A.CanonicalUri(BytesOf(ObjectPath(bucket, key)))))
  }

  // What the encoded path decodes to.

  function Prepended(front: A.Bytes, rest: Option<A.Bytes>): (r: Option<A.Bytes>) {
    if rest.None? then None else Some(front + rest.value)
  }

  lemma PrependTwice(a: A.Bytes, b: A.Bytes, rest: Option<A.Bytes>)
    ensures Prepended(a, Prepended(b, rest)) == Prepended(a + b, rest)
  {
    if rest.Some? { assert a + (b + rest.value) == (a + b) + rest.value; }
  }

  lemma DecodeOneMore(c: A.Byte, rest: A.Bytes)
    ensures A.Decode(A.Encoded(c) + rest) == Prepended([c], A.Decode(rest))
  {
    A.DecodeOneEncoded(c, rest);
  }

  lemma {:induction false} DecodeAcross(s: A.Bytes, rest: A.Bytes)
    ensures A.Decode(A.Encode(s) + rest) == Prepended(s, A.Decode(rest))
  {
    if s == [] {
      assert A.Encode(s) + rest == rest;
      if A.Decode(rest).Some? { assert s + A.Decode(rest).value == A.Decode(rest).value; }
    } else {
      DecodeAcross(s[1..], rest);
      var tail := A.Encode(s[1..]) + rest;
      assert A.Encode(s) + rest == A.Encoded(s[0]) + tail;
      DecodeOneMore(s[0], tail);
      PrependTwice([s[0]], s[1..], A.Decode(rest));
      assert [s[0]] + s[1..] == s;
    }
  }

  lemma {:induction false} JoinDecodes(segments: seq<A.Bytes>)
    requires segments != []
    ensures A.Decode(T.Join(A.EncodeAll(segments), A.SLASH)) == Some(T.Join(segments, A.SLASH))
  {
    var encoded := A.EncodeAll(segments);
    if |segments| == 1 {
      A.RoundTrip(segments[0]);
    } else {
      assert encoded[1..] == A.EncodeAll(segments[1..]);
      JoinDecodes(segments[1..]);
      SegmentDecodes(segments[0], T.Join(encoded[1..], A.SLASH));
    }
  }

  lemma SegmentDecodes(segment: A.Bytes, rest: A.Bytes)
    ensures A.Decode(A.Encode(segment) + [A.SLASH] + rest) == Prepended(segment + [A.SLASH], A.Decode(rest))
  {
    var tail := [A.SLASH] + rest;
    assert tail[1..] == rest;
    assert A.Encode(segment) + [A.SLASH] + rest == A.Encode(segment) + tail;
    DecodeAcross(segment, tail);
    PrependTwice(segment, [A.SLASH], A.Decode(rest));
  }

  /** The canonical path decodes, as a whole, to the path. */
  lemma UriDecodes(path: A.Bytes)
    requires path != []
    ensures A.Decode(A.CanonicalUri(path)) == Some(A.Rooted(path))
  {
    JoinDecodes(T.Split(A.Rooted(path), A.SLASH));
    T.JoinSplit(A.Rooted(path), A.SLASH);
  }

  predicate InPath(c: A.Byte) { A.Unreserved(c) || c == A.PERCENT || c == A.SLASH }

  lemma {:induction false} JoinAlphabet(segments: seq<A.Bytes>)
    ensures forall c :: c in T.Join(A.EncodeAll(segments), A.SLASH) ==> InPath(c)
  {
    var encoded := A.EncodeAll(segments);
    if segments != [] {
      A.EncodeAlphabet(segments[0]);
      assert encoded[1..] == A.EncodeAll(segments[1..]);
      JoinAlphabet(segments[1..]);
    }
  }

  /** Both readers decode alike. */
  lemma {:induction false} UnescapeIsDecode(e: A.Bytes)
    ensures Unescape(TextOf(e)) == if A.Decode(e).None? then None else Some(TextOf(A.Decode(e).value))
    decreases |e|
  {
    var s := TextOf(e);
    if e != [] {
      if e[0] != A.PERCENT {
        assert s[1..] == TextOf(e[1..]);
        UnescapeIsDecode(e[1..]);
        if A.Decode(e).Some? { assert TextOf(A.Decode(e).value) == [s[0]] + TextOf(A.Decode(e[1..]).value); }
      } else if |e| >= 3 {
        assert s[3..] == TextOf(e[3..]);
        UnescapeIsDecode(e[3..]);
        var one := A.DecodeOne(e);
        if A.Decode(e).Some? {
          assert TextOf(A.Decode(e).value) == [one.value.0 as char] + TextOf(A.Decode(e[3..]).value);
        }
      }
    }
  }

  lemma AddressedInPath(e: A.Bytes)
    requires forall c :: c in e ==> InPath(c)
    ensures Addressed(TextOf(e)) == Unescape(TextOf(e))
  {
    var s := TextOf(e);
    forall i | 0 <= i < |s| ensures s[i] != '#' && s[i] != '?' && !IsControl(s[i]) {
      assert e[i] in e;
    }
    Uncut(s, '#');
    Uncut(s, '?');
  }

  /** A presigned URL names its key, whatever characters are in it. */
  lemma PresignedNamesKey(bucket: string, key: string)
    requires IsBytes(ObjectPath(bucket, key))
    ensures PresignedPath(bucket, key) == Some(ObjectPath(bucket, key))
  {
    var path := BytesOf(ObjectPath(bucket, key));
    assert A.Rooted(path) == path;
    UriDecodes(path);
    JoinAlphabet(T.Split(path, A.SLASH));
    AddressedInPath(A.CanonicalUri(path));
    UnescapeIsDecode(A.CanonicalUri(path));
    SameText(ObjectPath(bucket, key));
  }

  // And where the object is.

  lemma {:induction false} BeforeExactly(s: string, c: char)
    ensures |Before(s, c)| <= |s| && (c in s ==> |Before(s, c)| < |s|)
  {
    if s != "" && s[0] != c { BeforeExactly(s[1..], c); }
  }

  lemma HarmfulChanges(s: string)
    requires !Harmless(s)
    ensures Addressed(s).None? || |Addressed(s).value| < |s|
  {
    BeforeExactly(s, '#');
    BeforeExactly(Before(s, '#'), '?');
    UnescapedExactly(Before(Before(s, '#'), '?'));
    if !Cuts(s) {
      Uncut(s, '#');
      Uncut(s, '?');
    } else if '#' !in s {
      Uncut(s, '#');
    }
  }

  lemma HarmlessBucket(bucket: string, key: string)
    requires Harmless(bucket)
    ensures Harmless(ObjectPath(bucket, key)) <==> Harmless(TrimSlash(key))
  {
    var lead := "/" + bucket;
    assert lead + "/" + TrimSlash(key) == ObjectPath(bucket, key);
    ControlAcross("", bucket);
    assert "" + "/" + bucket == lead;
    ControlAcross(lead, TrimSlash(key));
  }

  /** The exact condition under which the presigned URL of a key names the object that PutObject stored
      under it: no "#", no "?", no percent sign and no control character in the key. */
  lemma PresignedExactly(bucket: string, key: string)
    requires IsBytes(ObjectPath(bucket, key)) && Harmless(bucket)
    ensures PresignedPath(bucket, key) == Addressed(ObjectPath(bucket, key)) <==> Harmless(TrimSlash(key))
  {
    PresignedNamesKey(bucket, key);
    HarmlessBucket(bucket, key);
    if Harmless(ObjectPath(bucket, key)) {
      AddressedHarmless(ObjectPath(bucket, key));
    } else {
      HarmfulChanges(ObjectPath(bucket, key));
    }
  }

  /** The stored path is the addressed one, within the bucket. */
  lemma StoredInBucket(bucket: string, key: string)
    requires Harmless(bucket)
    ensures Addressed(ObjectPath(bucket, key)) ==
            if StoredPath(key).None? then None else Some("/" + bucket + ("/" + StoredPath(key).value))
  {
    var lead := "/" + bucket;
    ControlAcross("", bucket);
    assert "" + "/" + bucket == lead;
    HarmlessFront(lead, TrimSlash(key));
  }

  lemma BytesAcross(bucket: string, key: string)
    requires IsBytes(bucket) && IsBytes(key)
    ensures IsBytes(ObjectPath(bucket, key))
  {}

  /** A name that cuts: its object is stored under what is left of it, and its presigned URL names
      another. */
  lemma NameThatCuts(bucket: string, lead: string, name: string)
    requires Harmless(bucket) && IsBytes(bucket) && Harmless(lead) && IsBytes(lead) && lead != "" && lead[0] != '/'
    requires Cuts(name) && IsBytes(name) && Addressed(name).Some?
    ensures StoredPath(lead + "/" + name) == Some(lead + ("/" + Addressed(name).value))
    ensures IsBytes(ObjectPath(bucket, lead + "/" + name))
    ensures PresignedPath(bucket, lead + "/" + name) != Addressed(ObjectPath(bucket, lead + "/" + name))
  {
    var key := lead + "/" + name;
    HarmlessFront(lead, name);
    assert key[|lead| + 1..] == name && Cuts(key);
    BytesAcross(bucket, key);
    PresignedExactly(bucket, key);
  }

  /** A file uploaded as "report#1.pdf" is stored as "report". */
  lemma HashInName(bucket: string, lead: string)
    requires Harmless(bucket) && IsBytes(bucket) && Harmless(lead) && IsBytes(lead) && lead != "" && lead[0] != '/'
    ensures StoredPath(lead + "/" + "report#1.pdf") == Some(lead + ("/" + "report"))
    ensures IsBytes(ObjectPath(bucket, lead + "/" + "report#1.pdf"))
    ensures PresignedPath(bucket, lead + "/" + "report#1.pdf") != Addressed(ObjectPath(bucket, lead + "/" + "report#1.pdf"))
  {
    ReportCuts();
    ReportIsBytes();
    NameThatCuts(bucket, lead, "report#1.pdf");
  }

  lemma ReportIsBytes()
    ensures IsBytes("report#1.pdf") && '#' in "report#1.pdf"
  {
    assert "report#1.pdf"[6] == '#';
  }

  lemma ReportCuts()
    ensures Addressed("report#1.pdf") == Some("report")
  {
    var front, rest, back := "report", "#1.pdf", "1.pdf";
    assert front + rest == "report#1.pdf";
    HarmlessText(front);
    HarmlessText(back);
    BeforeUncut(front, rest, '#');
    assert rest[1..] == back && front + "" == front;
    Uncut(front, '?');
    UnescapedExactly(front);
    UnescapedExactly(back);
  }
}
