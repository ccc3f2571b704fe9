/** Object keys: tenant, owner, file id and file name joined and cleaned as a slash path. */
module ObjectKeys {
  import T = Text

  const SLASH: char := '/'

  function StripSlashes(p: string): (r: string) {
    if p != "" && p[|p| - 1] == SLASH then StripSlashes(p[..|p| - 1]) else p
  }

  function LastOf<E>(s: seq<E>): (e: E)
    requires s != []
  {
    s[|s| - 1]
  }

  /** filepath.Base on a system whose separator is the slash. */
  function Base(p: string): (r: string) {
    if p == "" then "."
    else
      var stripped := StripSlashes(p);
      if stripped == "" then "/" else LastOf(T.Split(stripped, SLASH))
  }

  function Sanitize(name: string, blank: char -> bool): (r: string) {
    var base := Base(T.Trim(name, blank));
    if base == "" || base == "." || base == ".." then "upload" else base
  }

  /** One ordinary path segment. */
  predicate Plain(s: string) { s != "" && s != "." && s != ".." && SLASH !in s }

  predicate OnlySlashes(s: string) { forall c :: c in s ==> c == SLASH }

  /** path.Clean on one more segment: empty segments and dots go, two dots take the segment before
      them along unless there is none to take. */
  function Keep(kept: seq<string>, s: string, rooted: bool): (r: seq<string>) {
    if s == "" || s == "." then kept
    else if s != ".." then kept + [s]
    else if kept != [] && LastOf(kept) != ".." then kept[..|kept| - 1]
    else if rooted then kept
    else kept + [".."]
  }

  function Resolve(segments: seq<string>, rooted: bool, kept: seq<string>): (r: seq<string>)
    decreases |segments|
  {
    if segments == [] then kept
    else
      Resolve(segments[1..], rooted, Keep(kept, segments[0], rooted))
  }

  function Clean(p: string): (r: string) {
    if p == "" then "."
    else
      var rooted := p[0] == SLASH;
      var out := T.Join(Resolve(T.Split(p, SLASH), rooted, []), SLASH);
      if rooted then "/" + out else if out == "" then "." else out
  }

  /** The tenant as the key names it. */
  function TenantPart(tenant: string): (t: string)
    ensures t != ""
  {
    if tenant == "" then "_" else tenant
  }

  /** path.Join of the four parts; the first is never empty. */
  function ObjectKey(tenant: string, owner: string, id: string, name: string, blank: char -> bool): (key: string) {
    var t := TenantPart(tenant);
    Clean(T.Join([t, owner, id, Sanitize(name, blank)], SLASH))
  }

  lemma {:induction false} StripSlashesFacts(p: string)
    ensures StripSlashes(p) == "" <==> OnlySlashes(p)
    ensures StripSlashes(p) != "" ==> LastOf(StripSlashes(p)) != SLASH
  {
    if p != "" && p[|p| - 1] == SLASH {
      var q := p[..|p| - 1];
      StripSlashesFacts(q);
      assert p == q + [SLASH];
      assert forall c :: c in p <==> c in q || c == SLASH;
    } else if p != "" {
      assert p[|p| - 1] in p;
    }
  }

  lemma {:induction false} LastSegment(p: string)
    requires p != "" && LastOf(p) != SLASH
    ensures LastOf(T.Split(p, SLASH)) != "" && SLASH !in LastOf(T.Split(p, SLASH))
  {
    T.SplitParts(p, SLASH);
    assert LastOf(T.Split(p, SLASH)) in T.Split(p, SLASH);
    if |p| > 1 {
      LastSegment(p[1..]);
    } else {
      T.SplitWithout(p, SLASH);
    }
  }

  /** A sanitized name is an ordinary path segment, unless the name given, once trimmed, is made of
      slashes only: it then passes as a slash. */
  lemma SanitizedIsPlain(name: string, blank: char -> bool)
    ensures Plain(Sanitize(name, blank)) <==> T.Trim(name, blank) == "" || !OnlySlashes(T.Trim(name, blank))
    ensures !Plain(Sanitize(name, blank)) ==> Sanitize(name, blank) == "/"
  {
    var p := T.Trim(name, blank);
    if p != "" {
      StripSlashesFacts(p);
      if !OnlySlashes(p) {
        LastSegment(StripSlashes(p));
      } else {
        assert Sanitize(name, blank) == "/" && '/' in "/";
      }
    }
  }

  // What Base takes of a path.

  /** b is the last piece of p between slashes, slashes at the end aside. */
  predicate EndsIn(p: string, b: string) {
    exists i :: 0 <= i <= |p| - |b| && PieceAt(p, b, i) && OnlySlashes(p[i + |b|..])
  }

  /** b stands in p at i, and starts there after a slash or at the start. */
  predicate PieceAt(p: string, b: string, i: nat)
    requires i + |b| <= |p|
  {
    p[i..i + |b|] == b && b != "" && SLASH !in b && (i > 0 ==> p[i - 1] == SLASH)
  }

  lemma {:induction false} LastSlash(p: string) returns (j: nat)
    requires SLASH in p
    ensures j < |p| && p[j] == SLASH && SLASH !in p[j + 1..]
  {
    var last := |p| - 1;
    if p[last] == SLASH {
      j := last;
    } else {
      assert p == p[..last] + [p[last]];
      j := LastSlash(p[..last]);
      assert p[j + 1..] == p[..last][j + 1..] + [p[last]];
    }
  }

  lemma LastSegmentAt(p: string) returns (i: nat)
    requires p != "" && LastOf(p) != SLASH
    ensures var b := LastOf(T.Split(p, SLASH)); i + |b| == |p| && PieceAt(p, b, i)
  {
    if SLASH !in p {
      T.SplitWithout(p, SLASH);
      i := 0;
      assert p[0..|p|] == p;
    } else {
      var j := LastSlash(p);
      var b := p[j + 1..];
      assert p == p[..j] + [SLASH] + b;
      T.SplitAcross(p[..j], b, SLASH);
      T.SplitWithout(b, SLASH);
      i := j + 1;
      assert p[i..i + |b|] == b;
    }
  }

  lemma {:induction false} StripAt(p: string)
    ensures StripSlashes(p) <= p && OnlySlashes(p[|StripSlashes(p)|..])
  {
    if p != "" && p[|p| - 1] == SLASH {
      var q := p[..|p| - 1];
      StripAt(q);
      var n := |StripSlashes(p)|;
      assert p[n..] == q[n..] + [SLASH];
    }
  }

  /** Base of a path that is not made of slashes alone is its last piece. */
  lemma BaseIsLastPiece(p: string)
    requires !OnlySlashes(p)
    ensures EndsIn(p, Base(p))
  {
    StripSlashesFacts(p);
    StripAt(p);
    var q := StripSlashes(p);
    var i := LastSegmentAt(q);
    var b := LastOf(T.Split(q, SLASH));
    assert p[i..i + |b|] == q[i..i + |b|] && PieceAt(p, b, i);
  }

  // What Clean does to a path, as the documentation of path.Clean has it.

  predicate Shrinks(s: string) { s == "" || s == "." }

  /** No empty segments and no dots; two dots only in front, and not under the root. */
  predicate Normal(segments: seq<string>, rooted: bool) {
    && (forall i :: 0 <= i < |segments| ==> !Shrinks(segments[i]))
    && (forall i :: 0 <= i < |segments| && segments[i] == ".." ==>
          !rooted && forall j :: 0 <= j < i ==> segments[j] == "..")
  }

  lemma KeepIsNormal(kept: seq<string>, s: string, rooted: bool)
    requires Normal(kept, rooted)
    ensures Normal(Keep(kept, s, rooted), rooted)
  {}

  lemma {:induction false} ResolveIsNormal(segments: seq<string>, rooted: bool, kept: seq<string>)
    requires Normal(kept, rooted)
    ensures Normal(Resolve(segments, rooted, kept), rooted)
    decreases |segments|
  {
    if segments != [] {
      KeepIsNormal(kept, segments[0], rooted);
      ResolveIsNormal(segments[1..], rooted, Keep(kept, segments[0], rooted));
    }
  }

  /** What is normal stays as it is. */
  lemma {:induction false} NormalStays(segments: seq<string>, rooted: bool, kept: seq<string>)
    requires Normal(kept + segments, rooted)
    ensures Resolve(segments, rooted, kept) == kept + segments
    decreases |segments|
  {
    if segments == [] {
      assert kept + segments == kept;
    } else {
      var all := kept + segments;
      assert all[|kept|] == segments[0];
      assert kept != [] ==> LastOf(kept) == all[|kept| - 1];
      assert kept + [segments[0]] + segments[1..] == all;
      NormalStays(segments[1..], rooted, kept + [segments[0]]);
    }
  }

  /** Empty segments and dots go; a segment and the two dots after it go; two dots at the root go. */
  lemma ResolveLaws(a: seq<string>, s: string, b: seq<string>, rooted: bool)
    ensures Shrinks(s) ==> Resolve(a + [s] + b, rooted, []) == Resolve(a + b, rooted, [])
    ensures Plain(s) ==> Resolve(a + [s, ".."] + b, rooted, []) == Resolve(a + b, rooted, [])
    ensures Resolve([".."] + b, true, []) == Resolve(b, true, [])
  {
    ResolveConcat(a, b, rooted, []);
    var kept := Resolve(a, rooted, []);
    assert a + [s] + b == a + ([s] + b) && a + [s, ".."] + b == a + ([s, ".."] + b);
    ResolveConcat(a, [s] + b, rooted, []);
    ResolveConcat(a, [s, ".."] + b, rooted, []);
    assert ([s] + b)[1..] == b && ([s, ".."] + b)[1..] == [".."] + b && ([".."] + b)[1..] == b;
    if Plain(s) { assert Keep(Keep(kept, s, rooted), "..", rooted) == kept; }
  }

  /** Cleaning twice is cleaning once, and what comes out is normal. */
  lemma CleanIsNormal(p: string)
    requires p != ""
    ensures var rooted := p[0] == SLASH;
            var segments := Resolve(T.Split(p, SLASH), rooted, []);
            Normal(segments, rooted) && Resolve(segments, rooted, []) == segments
  {
    var rooted := p[0] == SLASH;
    var segments := Resolve(T.Split(p, SLASH), rooted, []);
    ResolveIsNormal(T.Split(p, SLASH), rooted, []);
    assert [] + segments == segments;
    NormalStays(segments, rooted, []);
  }

  lemma {:induction false} ResolveConcat(a: seq<string>, b: seq<string>, rooted: bool, kept: seq<string>)
    ensures Resolve(a + b, rooted, kept) == Resolve(b, rooted, Resolve(a, rooted, kept))
    decreases |a|
  {
    if a == [] {
      assert a + b == b;
    } else {
      assert (a + b)[1..] == a[1..] + b;
      ResolveConcat(a[1..], b, rooted, Keep(kept, a[0], rooted));
    }
  }

  lemma {:induction false} ResolveKeepsSegments(segments: seq<string>, rooted: bool, kept: seq<string>)
    requires forall s :: s in segments ==> SLASH !in s
    requires forall s :: s in kept ==> SLASH !in s
    ensures forall s :: s in Resolve(segments, rooted, kept) ==> SLASH !in s
    decreases |segments|
  {
    if segments != [] {
      ResolveKeepsSegments(segments[1..], rooted, Keep(kept, segments[0], rooted));
    }
  }

  /** The last segments of a key: the id, and then the name if it is an ordinary segment. */
  function Tail(id: string, safe: string): (t: seq<string>) {
    if Plain(safe) then [id, safe] else [id]
  }

  lemma ResolveTail(id: string, safe: string, rooted: bool, kept: seq<string>)
    requires Plain(id) && (Plain(safe) || safe == "/")
    ensures Resolve([id] + T.Split(safe, SLASH), rooted, kept) == kept + Tail(id, safe)
  {
    if Plain(safe) {
      T.SplitWithout(safe, SLASH);
      var one := [safe];
      assert ([id] + one)[1..] == one && one[1..] == [];
      assert Resolve(one, rooted, kept + [id]) == kept + [id] + [safe];
      assert kept + [id] + [safe] == kept + [id, safe];
    } else {
      T.SplitWithout("", SLASH);
      T.SplitAcross("", "", SLASH);
      assert "" + [SLASH] + "" == safe;
      var blanks: seq<string> := ["", ""];
      assert T.Split(safe, SLASH) == blanks;
      assert ([id] + blanks)[1..] == blanks && blanks[1..] == [""] && blanks[1..][1..] == [];
      assert Resolve(blanks[1..], rooted, kept + [id]) == kept + [id];
      assert Resolve(blanks, rooted, kept + [id]) == kept + [id];
    }
  }

  lemma SplitFour(t: string, owner: string, id: string, safe: string)
    requires SLASH !in id
    ensures T.Split(T.Join([t, owner, id, safe], SLASH), SLASH)
            == (T.Split(t, SLASH) + T.Split(owner, SLASH)) + ([id] + T.Split(safe, SLASH))
  {
    var four := [t, owner, id, safe];
    assert four[1..] == [owner, id, safe] && four[1..][1..] == [id, safe] && four[1..][1..][1..] == [safe];
    var two := id + [SLASH] + safe;
    assert T.Join([id, safe], SLASH) == two;
    var three := owner + [SLASH] + two;
    assert T.Join([owner, id, safe], SLASH) == three;
    T.SplitAcross(t, three, SLASH);
    T.SplitAcross(owner, two, SLASH);
    T.SplitAcross(id, safe, SLASH);
    T.SplitWithout(id, SLASH);
  }

  /** Cutting a path made of slash-free segments yields the segments, after an empty one if the path
      is rooted. */
  lemma SplitCleaned(segments: seq<string>, rooted: bool)
    requires segments != [] && forall s :: s in segments ==> SLASH !in s
    ensures var out := T.Join(segments, SLASH);
            T.Split(if rooted then "/" + out else out, SLASH) == (if rooted then [""] else []) + segments
  {
    var out := T.Join(segments, SLASH);
    T.SplitJoin(segments, SLASH);
    if rooted {
      T.SplitAcross("", out, SLASH);
      T.SplitWithout("", SLASH);
      assert "" + [SLASH] + out == "/" + out;
    }
  }

  predicate Rooted(tenant: string) { TenantPart(tenant)[0] == SLASH }

  /** What cleaning keeps of tenant and owner. */
  function Kept(tenant: string, owner: string): (segments: seq<string>) {
    Resolve(T.Split(TenantPart(tenant), SLASH) + T.Split(owner, SLASH), Rooted(tenant), [])
  }

  lemma {:induction false} ResolveKeepsNonEmpty(segments: seq<string>, rooted: bool, kept: seq<string>)
    requires "" !in kept
    ensures "" !in Resolve(segments, rooted, kept)
    decreases |segments|
  {
    if segments != [] {
      ResolveKeepsNonEmpty(segments[1..], rooted, Keep(kept, segments[0], rooted));
    }
  }

  lemma SegmentsOfKey(tenant: string, owner: string, id: string, safe: string, rooted: bool) returns (kept: seq<string>)
    requires Plain(id) && (Plain(safe) || safe == "/")
    ensures kept == Resolve(T.Split(tenant, SLASH) + T.Split(owner, SLASH), rooted, [])
    ensures var p := T.Join([tenant, owner, id, safe], SLASH);
            && Resolve(T.Split(p, SLASH), rooted, []) == kept + Tail(id, safe)
            && forall s :: s in kept + Tail(id, safe) ==> SLASH !in s
  {
    var p := T.Join([tenant, owner, id, safe], SLASH);
    var head := T.Split(tenant, SLASH) + T.Split(owner, SLASH);
    SplitFour(tenant, owner, id, safe);
    ResolveConcat(head, [id] + T.Split(safe, SLASH), rooted, []);
    kept := Resolve(head, rooted, []);
    ResolveTail(id, safe, rooted, kept);
    T.SplitParts(p, SLASH);
    ResolveKeepsSegments(T.Split(p, SLASH), rooted, []);
  }

  lemma JoinIsNotEmpty(segments: seq<string>, id: string)
    requires id in segments && id != "" && forall s :: s in segments ==> SLASH !in s
    ensures T.Join(segments, SLASH) != ""
  {
    T.SplitJoin(segments, SLASH);
    T.SplitWithout("", SLASH);
  }

  /** A key is what is kept of tenant and owner, and then the tail, joined. */
  lemma KeyIsJoined(tenant: string, owner: string, id: string, name: string, blank: char -> bool)
    requires Plain(id)
    ensures var segments := Kept(tenant, owner) + Tail(id, Sanitize(name, blank));
            && ObjectKey(tenant, owner, id, name, blank) ==
               (if Rooted(tenant) then "/" + T.Join(segments, SLASH) else T.Join(segments, SLASH))
            && T.Join(segments, SLASH) != ""
            && forall s :: s in segments ==> SLASH !in s
  {
    var t := TenantPart(tenant);
    var safe := Sanitize(name, blank);
    SanitizedIsPlain(name, blank);
    var p := T.Join([t, owner, id, safe], SLASH);
    assert p != "" && p[0] == t[0];
    var kept := SegmentsOfKey(t, owner, id, safe, Rooted(tenant));
    var segments := kept + Tail(id, safe);
    assert Tail(id, safe)[0] == id;
    assert id in segments;
    JoinIsNotEmpty(segments, id);
  }

  /** The segments of a key, cut at its slashes. */
  lemma SplitKey(tenant: string, owner: string, id: string, name: string, blank: char -> bool) returns (before: seq<string>)
    requires Plain(id)
    ensures T.Split(ObjectKey(tenant, owner, id, name, blank), SLASH) == before + Tail(id, Sanitize(name, blank))
  {
    KeyIsJoined(tenant, owner, id, name, blank);
    var segments := Kept(tenant, owner) + Tail(id, Sanitize(name, blank));
    SplitCleaned(segments, Rooted(tenant));
    before := (if Rooted(tenant) then [""] else []) + Kept(tenant, owner);
  }

  /** Whatever tenant, owner and name are given, even ones with slashes and dots in them, cutting
      the key at its slashes yields the file id, and after it the sanitized name if that is an
      ordinary segment, at the end. */
  lemma KeyEndsWithId(tenant: string, owner: string, id: string, name: string, blank: char -> bool)
    requires Plain(id)
    ensures var segments := T.Split(ObjectKey(tenant, owner, id, name, blank), SLASH);
            var tail := Tail(id, Sanitize(name, blank));
            |segments| >= |tail| && segments[|segments| - |tail|..] == tail
  {
    var before := SplitKey(tenant, owner, id, name, blank);
  }

  /** Two uploads with ordinary names and the same key are the same file. */
  lemma KeyIdentifiesFile(t1: string, o1: string, id1: string, n1: string, t2: string, o2: string, id2: string, n2: string,
                          blank: char -> bool)
    requires Plain(id1) && Plain(id2)
    requires Plain(Sanitize(n1, blank)) && Plain(Sanitize(n2, blank))
    requires ObjectKey(t1, o1, id1, n1, blank) == ObjectKey(t2, o2, id2, n2, blank)
    ensures id1 == id2 && Sanitize(n1, blank) == Sanitize(n2, blank)
  {
    KeyEndsWithId(t1, o1, id1, n1, blank);
    KeyEndsWithId(t2, o2, id2, n2, blank);
  }
}
