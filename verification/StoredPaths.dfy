/** Where an object is stored. The client puts the key into a URL as it is, so that parsing the URL cuts
    it at "#" and "?" and decodes its percent escapes; what is left addresses the object. */
module StoredPaths {
  import opened Common
  import T = Text
  import K = ObjectKeys

  /** The text before the first c, and after it. */
  function Before(s: string, c: char): (r: string) {
    if s == "" || s[0] == c then "" else [s[0]] + Before(s[1..], c)
  }

  function After(s: string, c: char): (r: string) {
    if s == "" then "" else if s[0] == c then s[1..] else After(s[1..], c)
  }

  predicate IsControl(c: char) { c as int < 32 || c as int == 127 }

  predicate HasControl(s: string) { exists c :: c in s && IsControl(c) }

  function HexValue(d: char): (v: Option<int>)
    ensures v.Some? ==> 0 <= v.value < 16
  {
    if '0' <= d <= '9' then Some(d as int - 48)
    else if 'A' <= d <= 'F' then Some(d as int - 55)
    else if 'a' <= d <= 'f' then Some(d as int - 87)
    else None
  }

  /** Percent-decoding; None when an escape is malformed. */
  function Unescape(s: string): (r: Option<string>)
    decreases |s|
  {
    if s == "" then Some("")
    else if s[0] != '%' then
      var rest := Unescape(s[1..]);
      if rest.None? then None else Some([s[0]] + rest.value)
    else if |s| < 3 || HexValue(s[1]).None? || HexValue(s[2]).None? then None
    else
      var rest := Unescape(s[3..]);
      if rest.None? then None
      else Some([(HexValue(s[1]).value * 16 + HexValue(s[2]).value) as char] + rest.value)
  }

  /** The path that a URL ending in the text addresses; None when the URL does not parse. */
  function Addressed(text: string): (path: Option<string>) {
    var front := Before(text, '#');
    var path, fragment := Unescape(Before(front, '?')), Unescape(After(text, '#'));
    if HasControl(front) || path.None? || fragment.None? then None else path
  }

  function TrimSlash(key: string): (r: string) { if key != "" && key[0] == '/' then key[1..] else key }

  /** The path, within the bucket, at which PutObject, GetObject and DeleteObject find a key. */
  function StoredPath(key: string): (path: Option<string>) { Addressed(TrimSlash(key)) }

  predicate Cuts(s: string) { '#' in s || '?' in s }

  /** Characters that a URL takes as they are. */
  predicate Harmless(s: string) { !Cuts(s) && '%' !in s && !HasControl(s) }

  /** An ordinary segment of such characters; file ids are. */
  predicate Tame(s: string) { K.Plain(s) && Harmless(s) }

  // How the functions take texts joined by a slash.

  lemma {:induction false} BeforeUncut(p: string, q: string, c: char)
    requires c !in p
    ensures Before(p + q, c) == p + Before(q, c) && After(p + q, c) == After(q, c)
  {
    if p == "" {
      assert p + q == q;
    } else {
      assert (p + q)[1..] == p[1..] + q;
      BeforeUncut(p[1..], q, c);
    }
  }

  lemma {:induction false} BeforeCut(p: string, q: string, c: char)
    requires c in p
    ensures Before(p + q, c) == Before(p, c) && After(p + q, c) == After(p, c) + q
  {
    assert (p + q)[1..] == p[1..] + q;
    if p[0] != c { BeforeCut(p[1..], q, c); }
  }

  lemma Uncut(p: string, c: char)
    requires c !in p
    ensures Before(p, c) == p && After(p, c) == ""
  {
    BeforeUncut(p, "", c);
    assert p + "" == p;
  }

  lemma {:induction false} UnescapeAcross(p: string, q: string)
    ensures Unescape(p + "/" + q) ==
            if Unescape(p).None? || Unescape(q).None? then None else Some(Unescape(p).value + "/" + Unescape(q).value)
    decreases |p|
  {
    var s := p + "/" + q;
    if p == "" {
      assert s[0] == '/' && s[1..] == q;
      if Unescape(q).Some? {
        var v := Unescape(q).value;
        assert "" + "/" + v == ['/'] + v;
      }
    } else if p[0] != '%' {
      assert s[1..] == p[1..] + "/" + q;
      UnescapeAcross(p[1..], q);
      Regroup(p[0], Unescape(p[1..]), Unescape(q));
    } else if |p| >= 3 {
      assert s[1] == p[1] && s[2] == p[2] && s[3..] == p[3..] + "/" + q;
      UnescapeAcross(p[3..], q);
      if HexValue(p[1]).Some? && HexValue(p[2]).Some? {
        Regroup((HexValue(p[1]).value * 16 + HexValue(p[2]).value) as char, Unescape(p[3..]), Unescape(q));
      }
    } else {
      assert s[|p|] == '/' && HexValue('/').None?;
      if |p| == 2 { assert s[1] == p[1]; }
    }
  }

  lemma Regroup(c: char, u: Option<string>, v: Option<string>)
    ensures u.Some? && v.Some? ==> [c] + (u.value + "/" + v.value) == ([c] + u.value) + "/" + v.value
  {}

  /** Decoding leaves a text alone exactly when it has no percent sign. */
  lemma {:induction false} UnescapedExactly(s: string)
    ensures Unescape(s).Some? ==> |Unescape(s).value| <= |s|
    ensures Unescape(s).Some? && '%' in s ==> |Unescape(s).value| < |s|
    ensures Unescape(s) == Some(s) <==> '%' !in s
    decreases |s|
  {
    if s != "" {
      if s[0] != '%' {
        UnescapedExactly(s[1..]);
        assert s == [s[0]] + s[1..];
      } else if |s| >= 3 {
        UnescapedExactly(s[3..]);
      }
    }
  }

  lemma ControlAcross(p: string, q: string)
    ensures HasControl(p + "/" + q) <==> HasControl(p) || HasControl(q)
  {
    var s := p + "/" + q;
    forall c ensures c in s <==> c in p || c == '/' || c in q {}
  }

  /** A part that does not cut is decoded on its own. */
  lemma AddressedAcross(p: string, q: string)
    requires !Cuts(p)
    ensures Addressed(p + "/" + q) ==
            if HasControl(p) || Unescape(p).None? || Addressed(q).None? then None
            else Some(Unescape(p).value + "/" + Addressed(q).value)
  {
    var lead := p + "/";
    assert p + "/" + q == lead + q;
    BeforeUncut(lead, q, '#');
    var front := Before(q, '#');
    BeforeUncut(lead, front, '?');
    assert lead + front == p + "/" + front;
    assert lead + Before(front, '?') == p + "/" + Before(front, '?');
    ControlAcross(p, front);
    UnescapeAcross(p, Before(front, '?'));
  }

  /** What follows a part that cuts is lost. */
  lemma AddressedCut(p: string, q: string)
    requires Cuts(p) && Harmless(q)
    ensures Addressed(p + "/" + q) == Addressed(p)
  {
    var rest := "/" + q;
    assert p + "/" + q == p + rest;
    UnescapedExactly(q);
    if '#' in p {
      BeforeCut(p, rest, '#');
      assert After(p, '#') + rest == After(p, '#') + "/" + q;
      UnescapeAcross(After(p, '#'), q);
    } else {
      Uncut(p, '#');
      Uncut(p + rest, '#');
      BeforeCut(p, rest, '?');
      ControlAcross(p, q);
    }
  }

  /** Nothing that follows mends a part that makes no URL. */
  lemma BrokenStaysBroken(p: string, q: string)
    requires Addressed(p).None?
    ensures Addressed(p + "/" + q).None?
  {
    var rest := "/" + q;
    assert p + "/" + q == p + rest;
    if !Cuts(p) {
      Uncut(p, '#');
      Uncut(p, '?');
      AddressedAcross(p, q);
    } else if '#' in p {
      BeforeCut(p, rest, '#');
      assert After(p, '#') + rest == After(p, '#') + "/" + q;
      UnescapeAcross(After(p, '#'), q);
    } else {
      var front := Before(rest, '#');
      Uncut(p, '#');
      BeforeUncut(p, rest, '#');
      BeforeCut(p, front, '?');
      assert front == "/" + Before(q, '#');
      assert p + front == p + "/" + Before(q, '#');
      ControlAcross(p, Before(q, '#'));
    }
  }

  lemma AddressedHarmless(s: string)
    requires Harmless(s)
    ensures Addressed(s) == Some(s)
  {
    Uncut(s, '#');
    Uncut(s, '?');
    UnescapedExactly(s);
  }

  // New ids and new paths.

  /** What of a key comes before the file id, without the slash between them. */
  function Lead(tenant: string, owner: string): (lead: string) { T.Join(K.Kept(tenant, owner), '/') }

  function Following(safe: string): (r: string) { if K.Plain(safe) then "/" + safe else "" }

  lemma {:induction false} JoinConcat(a: seq<string>, b: seq<string>)
    requires a != [] && b != []
    ensures T.Join(a + b, '/') == T.Join(a, '/') + "/" + T.Join(b, '/')
  {
    if |a| == 1 {
      assert (a + b)[1..] == b;
    } else {
      assert (a + b)[1..] == a[1..] + b;
      JoinConcat(a[1..], b);
    }
  }

  lemma JoinTail(id: string, safe: string)
    ensures T.Join(K.Tail(id, safe), '/') == id + Following(safe)
  {
    if K.Plain(safe) {
      assert [id, safe][1..] == [safe];
    }
  }

  /** The URL's path within the bucket, before it is parsed. */
  lemma KeyText(tenant: string, owner: string, id: string, name: string, blank: char -> bool)
    requires Tame(id)
    ensures TrimSlash(K.ObjectKey(tenant, owner, id, name, blank)) ==
            (if K.Kept(tenant, owner) == [] then "" else Lead(tenant, owner) + "/")
            + (id + Following(K.Sanitize(name, blank)))
  {
    var kept, safe := K.Kept(tenant, owner), K.Sanitize(name, blank);
    var segments := kept + K.Tail(id, safe);
    var out := T.Join(segments, '/');
    K.KeyIsJoined(tenant, owner, id, name, blank);
    JoinTail(id, safe);
    if kept == [] {
      assert segments == K.Tail(id, safe);
    } else {
      JoinConcat(kept, K.Tail(id, safe));
    }
    K.ResolveKeepsNonEmpty(T.Split(K.TenantPart(tenant), '/') + T.Split(owner, '/'), K.Rooted(tenant), []);
    FirstOfJoin(segments);
    assert ("/" + out)[1..] == out;
  }

  lemma FirstOfJoin(segments: seq<string>)
    requires segments != [] && segments[0] != "" && '/' !in segments[0]
    ensures T.Join(segments, '/') != "" && T.Join(segments, '/')[0] != '/'
  {
    assert T.Join(segments, '/')[0] == segments[0][0];
  }

  /** From the file id on, if the URL parses: the id stays, and what follows starts with a slash. */
  lemma AddressedFromId(id: string, safe: string)
    requires Tame(id)
    ensures var path := Addressed(id + Following(safe));
            path.Some? ==> exists rest :: path.value == id + rest && (rest == "" || rest[0] == '/')
  {
    AddressedHarmless(id);
    if K.Plain(safe) {
      HarmlessFront(id, safe);
      assert id + Following(safe) == id + "/" + safe;
    } else {
      assert id + "" == id;
    }
  }

  /** Texts without slashes, each followed by nothing or by a slash, are found in front. */
  lemma SameFront(a: string, x: string, b: string, y: string)
    requires '/' !in a && '/' !in b && (x == "" || x[0] == '/') && (y == "" || y[0] == '/')
    requires a + x == b + y
    ensures a == b && x == y
  {
    BeforeUncut(a, x, '/');
    BeforeUncut(b, y, '/');
    assert (a + x)[|a|..] == x && (b + y)[|b|..] == y;
  }

  function DecodedLead(tenant: string, owner: string): (r: string) {
    if K.Kept(tenant, owner) == [] then "" else Unescape(Lead(tenant, owner)).GetOr("") + "/"
  }

  /** The stored path of a key whose lead does not cut. */
  lemma PathFromLead(tenant: string, owner: string, id: string, name: string, blank: char -> bool)
    requires Tame(id) && !Cuts(Lead(tenant, owner))
    ensures var path := StoredPath(K.ObjectKey(tenant, owner, id, name, blank));
            path.Some? ==>
              exists rest :: (rest == "" || rest[0] == '/') && path.value == DecodedLead(tenant, owner) + (id + rest)
  {
    var tail := id + Following(K.Sanitize(name, blank));
    KeyText(tenant, owner, id, name, blank);
    AddressedFromId(id, K.Sanitize(name, blank));
    if K.Kept(tenant, owner) == [] {
      assert "" + tail == tail;
    } else {
      assert Lead(tenant, owner) + "/" + tail == (Lead(tenant, owner) + "/") + tail;
      AddressedAcross(Lead(tenant, owner), tail);
    }
  }

  lemma UncutLeadKeepsApart(tenant: string, owner: string, id1: string, n1: string, id2: string, n2: string,
                            blank: char -> bool)
    requires Tame(id1) && Tame(id2) && id1 != id2 && !Cuts(Lead(tenant, owner))
    requires StoredPath(K.ObjectKey(tenant, owner, id1, n1, blank)).Some?
    ensures StoredPath(K.ObjectKey(tenant, owner, id1, n1, blank)) != StoredPath(K.ObjectKey(tenant, owner, id2, n2, blank))
  {
    var p1 := StoredPath(K.ObjectKey(tenant, owner, id1, n1, blank));
    var p2 := StoredPath(K.ObjectKey(tenant, owner, id2, n2, blank));
    PathFromLead(tenant, owner, id1, n1, blank);
    PathFromLead(tenant, owner, id2, n2, blank);
    if p1 == p2 {
      var lead := DecodedLead(tenant, owner);
      var r1 :| (r1 == "" || r1[0] == '/') && p1.value == lead + (id1 + r1);
      var r2 :| (r2 == "" || r2[0] == '/') && p2.value == lead + (id2 + r2);
      assert p1.value[|lead|..] == id1 + r1 && p2.value[|lead|..] == id2 + r2;
      SameFront(id1, r1, id2, r2);
    }
  }

  lemma CutLeadMeets(tenant: string, owner: string, id: string, blank: char -> bool)
    requires Tame(id) && Cuts(Lead(tenant, owner))
    ensures StoredPath(K.ObjectKey(tenant, owner, id, "", blank)) == Addressed(Lead(tenant, owner))
  {
    var lead, tail := Lead(tenant, owner), id + "/upload";
    KeyText(tenant, owner, id, "", blank);
    assert K.Sanitize("", blank) == "upload" && Following("upload") == "/upload";
    assert (lead + "/") + tail == lead + "/" + tail;
    TameWithName(id);
    AddressedCut(lead, tail);
  }

  lemma TameWithName(id: string)
    requires Tame(id)
    ensures Harmless(id + "/upload")
  {
    var name := "/upload";
    forall i | 0 <= i < |name| ensures name[i] != '#' && name[i] != '?' && name[i] != '%' && !IsControl(name[i]) {}
    forall c | c in id + name ensures c in id || c in name {}
  }

  /** Two files of one tenant and owner that are stored as one object. */
  predicate Meet(tenant: string, owner: string, blank: char -> bool, id1: string, n1: string, id2: string, n2: string) {
    && Tame(id1) && Tame(id2) && id1 != id2
    && StoredPath(K.ObjectKey(tenant, owner, id1, n1, blank)).Some?
    && StoredPath(K.ObjectKey(tenant, owner, id1, n1, blank)) == StoredPath(K.ObjectKey(tenant, owner, id2, n2, blank))
  }

  /** Files of one tenant and owner with different ids are never one object. */
  ghost predicate KeptApart(tenant: string, owner: string, blank: char -> bool) {
    forall id1: string, id2: string, n1: string, n2: string :: !Meet(tenant, owner, blank, id1, n1, id2, n2)
  }

  /** Once what is kept of tenant and owner cuts, any two ids meet. */
  lemma CutLeadsMeet(tenant: string, owner: string, id1: string, id2: string, blank: char -> bool)
    requires Cuts(Lead(tenant, owner)) && Addressed(Lead(tenant, owner)).Some?
    requires Tame(id1) && Tame(id2) && id1 != id2
    ensures Meet(tenant, owner, blank, id1, "", id2, "")
  {
    CutLeadMeets(tenant, owner, id1, blank);
    CutLeadMeets(tenant, owner, id2, blank);
  }

  /** No name saves an id whose URL does not parse before it. */
  lemma BrokenLeadStoresNothing(tenant: string, owner: string, id: string, name: string, blank: char -> bool)
    requires Tame(id) && Addressed(Lead(tenant, owner)).None?
    ensures StoredPath(K.ObjectKey(tenant, owner, id, name, blank)).None?
  {
    var lead, tail := Lead(tenant, owner), id + Following(K.Sanitize(name, blank));
    KeyText(tenant, owner, id, name, blank);
    assert (lead + "/") + tail == lead + "/" + tail;
    BrokenStaysBroken(lead, tail);
  }

  /** The exact condition on tenant and owner: whatever the names, new ids give new objects if and only if
      what is kept of tenant and owner has no "#" and no "?", or makes no URL at all. */
  lemma KeptApartExactly(tenant: string, owner: string, blank: char -> bool)
    ensures KeptApart(tenant, owner, blank) <==>
            !Cuts(Lead(tenant, owner)) || Addressed(Lead(tenant, owner)).None?
  {
    if !Cuts(Lead(tenant, owner)) {
      forall id1: string, id2: string, n1: string, n2: string ensures !Meet(tenant, owner, blank, id1, n1, id2, n2) {
        if Meet(tenant, owner, blank, id1, n1, id2, n2) {
          UncutLeadKeepsApart(tenant, owner, id1, n1, id2, n2, blank);
        }
      }
    } else if Addressed(Lead(tenant, owner)).None? {
      forall id1: string, id2: string, n1: string, n2: string ensures !Meet(tenant, owner, blank, id1, n1, id2, n2) {
        if Tame(id1) { BrokenLeadStoresNothing(tenant, owner, id1, n1, blank); }
      }
    } else {
      TwoIds();
      CutLeadsMeet(tenant, owner, "1", "2", blank);
    }
  }

  lemma TwoIds()
    ensures Tame("1") && Tame("2") && "1" != "2"
  {}

  /** Ordinary tenants and owners: a segment each, of characters that a URL takes as they are. */
  predicate Ordinary(tenant: string, owner: string) { Tame(K.TenantPart(tenant)) && Tame(owner) }

  /** Of a tenant and an owner that are segments each, both are kept. */
  lemma PlainKept(tenant: string, owner: string)
    requires K.Plain(K.TenantPart(tenant)) && K.Plain(owner)
    ensures K.Kept(tenant, owner) == [K.TenantPart(tenant), owner]
    ensures Lead(tenant, owner) == K.TenantPart(tenant) + "/" + owner
  {
    var t := K.TenantPart(tenant);
    T.SplitWithout(t, '/');
    T.SplitWithout(owner, '/');
    var two := [t] + [owner];
    var one := two[1..];
    assert one == [owner] && one[1..] == [];
    assert two == [t, owner] && [] + [t] == [t];
    assert K.Resolve(one, false, [t]) == [t] + [owner];
    assert !K.Rooted(tenant);
    assert T.Join(one, '/') == owner;
    assert K.Resolve(two, false, []) == K.Resolve(one, false, [t]);
    assert [t, owner][1..] == [owner];
  }

  /** The stored path of an ordinary tenant's and owner's file names tenant, owner and id. */
  lemma OrdinaryPath(tenant: string, owner: string, id: string, name: string, blank: char -> bool) returns (rest: string)
    requires Ordinary(tenant, owner) && Tame(id)
    requires StoredPath(K.ObjectKey(tenant, owner, id, name, blank)).Some?
    ensures rest == "" || rest[0] == '/'
    ensures StoredPath(K.ObjectKey(tenant, owner, id, name, blank)).value ==
            K.TenantPart(tenant) + ("/" + (owner + ("/" + (id + rest))))
  {
    var t := K.TenantPart(tenant);
    var tail := id + Following(K.Sanitize(name, blank));
    PlainKept(tenant, owner);
    KeyText(tenant, owner, id, name, blank);
    TwoFronts(t, owner, tail);
    AddressedFromId(id, K.Sanitize(name, blank));
    rest := RestOf(id, Addressed(tail).value);
  }

  lemma HarmlessFront(p: string, q: string)
    requires Harmless(p)
    ensures Addressed(p + "/" + q) == if Addressed(q).None? then None else Some(p + ("/" + Addressed(q).value))
  {
    UnescapedExactly(p);
    AddressedAcross(p, q);
    if Addressed(q).Some? { assert p + "/" + Addressed(q).value == p + ("/" + Addressed(q).value); }
  }

  lemma TwoFronts(p: string, q: string, r: string)
    requires Harmless(p) && Harmless(q)
    ensures Addressed((p + "/" + q + "/") + r) ==
            if Addressed(r).None? then None else Some(p + ("/" + (q + ("/" + Addressed(r).value))))
  {
    assert (p + "/" + q + "/") + r == p + "/" + (q + "/" + r);
    HarmlessFront(p, q + "/" + r);
    HarmlessFront(q, r);
  }

  lemma RestOf(id: string, path: string) returns (rest: string)
    requires exists r :: path == id + r && (r == "" || r[0] == '/')
    ensures path == id + rest && (rest == "" || rest[0] == '/')
  {
    rest :| path == id + rest && (rest == "" || rest[0] == '/');
  }

  /** Ordinary tenants and owners never meet, whatever the names: one object means one tenant, one owner
      and one id. */
  lemma OrdinaryNeverMeet(t1: string, o1: string, id1: string, n1: string, t2: string, o2: string, id2: string, n2: string,
                          blank: char -> bool)
    requires Ordinary(t1, o1) && Ordinary(t2, o2) && Tame(id1) && Tame(id2)
    requires StoredPath(K.ObjectKey(t1, o1, id1, n1, blank)).Some?
    requires StoredPath(K.ObjectKey(t1, o1, id1, n1, blank)) == StoredPath(K.ObjectKey(t2, o2, id2, n2, blank))
    ensures K.TenantPart(t1) == K.TenantPart(t2) && o1 == o2 && id1 == id2
  {
    var r1 := OrdinaryPath(t1, o1, id1, n1, blank);
    var r2 := OrdinaryPath(t2, o2, id2, n2, blank);
    var x1, x2 := "/" + (id1 + r1), "/" + (id2 + r2);
    SameFront(K.TenantPart(t1), "/" + (o1 + x1), K.TenantPart(t2), "/" + (o2 + x2));
    assert ("/" + (o1 + x1))[1..] == o1 + x1 && ("/" + (o2 + x2))[1..] == o2 + x2;
    SameFront(o1, x1, o2, x2);
    assert x1[1..] == id1 + r1 && x2[1..] == id2 + r2;
    SameFront(id1, r1, id2, r2);
  }

  lemma HarmlessText(s: string)
    requires forall i :: 0 <= i < |s| ==> '.' <= s[i] <= '9' || 'a' <= s[i] <= 'z'
    ensures Harmless(s)
  {}

  lemma HashedLead()
    ensures Cuts(Lead("t", "a#b")) && Addressed(Lead("t", "a#b")) == Some("t/a")
  {
    HarmlessText("t");
    HashCuts();
    PlainKept("t", "a#b");
    var lead := "t" + "/" + "a#b";
    assert lead[2..] == "a#b" && '#' in lead;
    HarmlessFront("t", "a#b");
    assert "t" + ("/" + "a") == "t/a";
  }

  /** All files of the owner "a#b" are stored at "t/a". */
  lemma HashInOwner(id: string, blank: char -> bool)
    requires Tame(id)
    ensures StoredPath(K.ObjectKey("t", "a#b", id, "", blank)) == Some("t/a")
  {
    HashedLead();
    CutLeadMeets("t", "a#b", id, blank);
  }

  lemma HashCuts()
    ensures '#' in "a#b" && Addressed("a#b") == Some("a")
  {
    assert "a#b" == "a" + "#b" && "a#b"[1] == '#';
    HarmlessText("a");
    HarmlessText("b");
    BeforeUncut("a", "#b", '#');
    Uncut("a", '?');
    assert "#b"[1..] == "b" && "a" + "" == "a";
    UnescapedExactly("a");
    UnescapedExactly("b");
  }
}
