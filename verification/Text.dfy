/** Sequences cut at and glued with a separator, as Go's strings.Split and strings.Join
    do with a one-element separator. Generic, so that it serves text and bytes alike. */
module Text {
  function Split<T(==)>(s: seq<T>, sep: T): (parts: seq<seq<T>>)
    ensures |parts| >= 1
  {
    if s == [] then [[]]
    else
      var rest := Split(s[1..], sep);
      if s[0] == sep then [[]] + rest else [[s[0]] + rest[0]] + rest[1..]
  }

  function Join<T>(parts: seq<seq<T>>, sep: T): (s: seq<T>) {
    if |parts| == 0 then []
    else if |parts| == 1 then parts[0]
    else parts[0] + [sep] + Join(parts[1..], sep)
  }

  lemma {:induction false} SplitWithout<T>(s: seq<T>, sep: T)
    requires sep !in s
    ensures Split(s, sep) == [s]
  {
    if s != [] {
      SplitWithout(s[1..], sep);
      assert [s[0]] + s[1..] == s;
    }
  }

  /** Cutting at a separator that stands between two texts cuts each text on its own. */
  lemma {:induction false} SplitAcross<T>(a: seq<T>, b: seq<T>, sep: T)
    ensures Split(a + [sep] + b, sep) == Split(a, sep) + Split(b, sep)
  {
    var whole := a + [sep] + b;
    if a == [] {
      assert whole[1..] == b;
    } else {
      assert whole[1..] == a[1..] + [sep] + b;
      SplitAcross(a[1..], b, sep);
    }
  }

  /** A text that ends with a separator is cut on its own, whatever follows. */
  lemma {:induction false} SplitAfterSep<T>(before: seq<T>, s: seq<T>, sep: T)
    requires var parts := Split(before, sep); parts[|parts| - 1] == []
    ensures var parts := Split(before, sep); Split(before + s, sep) == parts[..|parts| - 1] + Split(s, sep)
  {
    if before == [] {
      assert before + s == s;
    } else {
      var rest := Split(before[1..], sep);
      assert (before + s)[1..] == before[1..] + s;
      SplitAfterSep(before[1..], s, sep);
      assert before[0] != sep ==> |rest| > 1;
    }
  }

  lemma {:induction false} SplitJoin<T>(parts: seq<seq<T>>, sep: T)
    requires |parts| >= 1
    requires forall p :: p in parts ==> sep !in p
    ensures Split(Join(parts, sep), sep) == parts
  {
    SplitWithout(parts[0], sep);
    if |parts| > 1 {
      SplitAcross(parts[0], Join(parts[1..], sep), sep);
      SplitJoin(parts[1..], sep);
      assert parts == [parts[0]] + parts[1..];
    }
  }

  lemma {:induction false} JoinSplit<T>(s: seq<T>, sep: T)
    ensures Join(Split(s, sep), sep) == s
  {
    if s != [] {
      JoinSplit(s[1..], sep);
      var rest := Split(s[1..], sep);
      var parts := Split(s, sep);
      if s[0] == sep {
        assert parts[1..] == rest;
      } else {
        assert parts[1..] == rest[1..];
        if |rest| > 1 {
          assert Join(parts, sep) == [s[0]] + (rest[0] + [sep] + Join(rest[1..], sep));
        }
      }
      assert [s[0]] + s[1..] == s;
    }
  }

  lemma {:induction false} SplitParts<T>(s: seq<T>, sep: T)
    ensures forall p :: p in Split(s, sep) ==> sep !in p
  {
    if s != [] {
      SplitParts(s[1..], sep);
      var rest := Split(s[1..], sep);
      assert rest[0] in rest;
    }
  }

  /** strings.ToLower of ASCII text. */
  function LowerChar(c: char): (r: char) { if 'A' <= c <= 'Z' then (c as int + 32) as char else c }

  function Lower(s: string): (r: string) { if s == "" then "" else [LowerChar(s[0])] + Lower(s[1..]) }

  lemma {:induction false} LowerAt(s: string)
    ensures |Lower(s)| == |s| && forall i :: 0 <= i < |s| ==> Lower(s)[i] == LowerChar(s[i])
  {
    if s != "" {
      LowerAt(s[1..]);
    }
  }

  lemma LowerTwice(s: string)
    ensures Lower(Lower(s)) == Lower(s)
  {
    LowerAt(s);
    LowerAt(Lower(s));
  }

  /** strings.HasPrefix. */
  predicate HasPrefix<T(==)>(s: seq<T>, prefix: seq<T>) { prefix <= s }

  /** Trimming with respect to a set of blanks, as strings.TrimSpace and String.trim do
      with theirs. */
  function TrimLeft(s: string, blank: char -> bool): (r: string) {
    if s != "" && blank(s[0]) then TrimLeft(s[1..], blank) else s
  }

  function TrimRight(s: string, blank: char -> bool): (r: string) {
    if s != "" && blank(s[|s| - 1]) then TrimRight(s[..|s| - 1], blank) else s
  }

  function Trim(s: string, blank: char -> bool): (r: string) {
    TrimRight(TrimLeft(s, blank), blank)
  }

  predicate Trimmed(s: string, blank: char -> bool) {
    s != "" ==> !blank(s[0]) && !blank(s[|s| - 1])
  }

  predicate AllBlank(s: string, blank: char -> bool) { forall i :: 0 <= i < |s| ==> blank(s[i]) }

  /** s is blanks, then t, which neither starts nor ends with a blank, then blanks. */
  predicate TrimsTo(s: string, t: string, blank: char -> bool) {
    Trimmed(t, blank) && exists i :: 0 <= i <= |s| - |t| && TrimsAt(s, t, i, blank)
  }

  predicate TrimsAt(s: string, t: string, i: nat, blank: char -> bool)
    requires i + |t| <= |s|
  {
    s[i..i + |t|] == t && AllBlank(s[..i], blank) && AllBlank(s[i + |t|..], blank)
  }

  lemma {:induction false} TrimRightFacts(s: string, blank: char -> bool)
    ensures TrimRight(s, blank) <= s && AllBlank(s[|TrimRight(s, blank)|..], blank)
    ensures TrimRight(s, blank) != "" ==> !blank(TrimRight(s, blank)[|TrimRight(s, blank)| - 1])
  {
    if s != "" && blank(s[|s| - 1]) { TrimRightFacts(s[..|s| - 1], blank); }
  }

  lemma {:induction false} TrimLeftFacts(s: string, blank: char -> bool)
    ensures TrimLeft(s, blank) != "" ==> !blank(TrimLeft(s, blank)[0])
    ensures var n := |s| - |TrimLeft(s, blank)|; n >= 0 && TrimLeft(s, blank) == s[n..] && AllBlank(s[..n], blank)
  {
    if s != "" && blank(s[0]) { TrimLeftFacts(s[1..], blank); }
  }

  lemma TrimIsThere(s: string, blank: char -> bool)
    ensures TrimsTo(s, Trim(s, blank), blank)
  {
    var left, t := TrimLeft(s, blank), Trim(s, blank);
    TrimLeftFacts(s, blank);
    TrimRightFacts(left, blank);
    var n := |s| - |left|;
    assert s[n..][..|t|] == s[n..n + |t|] && s[n..][|t|..] == s[n + |t|..];
    assert TrimsAt(s, t, n, blank);
  }

  lemma OutsideIsBlank(s: string, t: string, i: nat, k: nat, blank: char -> bool)
    requires i + |t| <= |s| && TrimsAt(s, t, i, blank) && k < |s| && (k < i || k >= i + |t|)
    ensures blank(s[k])
  {
    if k < i {
      assert blank(s[..i][k]);
    } else {
      assert blank(s[i + |t|..][k - i - |t|]);
    }
  }

  lemma NotBlankIsInside(s: string, t: string, i: nat, k: nat, blank: char -> bool)
    requires i + |t| <= |s| && TrimsAt(s, t, i, blank) && k < |s| && !blank(s[k])
    ensures i <= k < i + |t|
  {
    if k < i || k >= i + |t| { OutsideIsBlank(s, t, i, k, blank); }
  }

  lemma TrimIsOne(s: string, t: string, i: nat, u: string, j: nat, blank: char -> bool)
    requires i + |t| <= |s| && j + |u| <= |s| && Trimmed(t, blank) && Trimmed(u, blank)
    requires TrimsAt(s, t, i, blank) && TrimsAt(s, u, j, blank) && t != ""
    ensures t == u
  {
    assert s[i] == t[0] && s[i + |t| - 1] == t[|t| - 1];
    NotBlankIsInside(s, u, j, i, blank);
    NotBlankIsInside(s, u, j, i + |t| - 1, blank);
    assert s[j] == u[0] && s[j + |u| - 1] == u[|u| - 1];
    NotBlankIsInside(s, t, i, j, blank);
    NotBlankIsInside(s, t, i, j + |u| - 1, blank);
  }

  /** Trimming takes the blanks off both ends, and nothing else. */
  lemma TrimExactly(s: string, t: string, blank: char -> bool)
    ensures TrimsTo(s, t, blank) <==> t == Trim(s, blank)
  {
    TrimIsThere(s, blank);
    if TrimsTo(s, t, blank) {
      var u := Trim(s, blank);
      var i :| 0 <= i <= |s| - |t| && TrimsAt(s, t, i, blank);
      var j :| 0 <= j <= |s| - |u| && TrimsAt(s, u, j, blank);
      if t != "" { TrimIsOne(s, t, i, u, j, blank); }
      if u != "" { TrimIsOne(s, u, j, t, i, blank); }
    }
  }

  /** Trimming yields a trimmed text with no new characters, leaves a trimmed text alone, and leaves
      nothing exactly of blanks. */
  lemma TrimFacts(s: string, blank: char -> bool)
    ensures Trimmed(Trim(s, blank), blank)
    ensures forall c :: c in Trim(s, blank) ==> c in s
    ensures Trimmed(s, blank) ==> Trim(s, blank) == s
    ensures Trim(s, blank) == "" <==> AllBlank(s, blank)
  {
    TrimIsThere(s, blank);
    var t := Trim(s, blank);
    var i :| 0 <= i <= |s| - |t| && TrimsAt(s, t, i, blank);
    assert forall c :: c in s[i..i + |t|] ==> c in s;
    if t == "" { assert s == s[..i] + s[i..]; }
    if t != "" { assert s[i] == t[0]; }
    if Trimmed(s, blank) {
      assert TrimsAt(s, s, 0, blank);
      TrimExactly(s, s, blank);
    }
  }
}
