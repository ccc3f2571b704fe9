/** Which headers a signature covers, and in which order, when the header map is iterated in any
    order and sorted by any sorting algorithm. */
module SignedHeaders {
  import opened Common
  import T = Text

  function UpperChar(c: char): (r: char) { if 'a' <= c <= 'z' then (c as int - 32) as char else c }

  function Capitalized(s: string, upper: bool): (r: string) {
    if s == "" then "" else [if upper then UpperChar(s[0]) else T.LowerChar(s[0])] + Capitalized(s[1..], s[0] == '-')
  }

  /** http.CanonicalHeaderKey of a token: a capital at the start and after every hyphen. */
  function CanonicalKey(s: string): (r: string) { Capitalized(s, true) }

  type Header = map<string, seq<string>>

  /** As every key set through http.Header is. */
  ghost predicate CanonicalKeys(h: Header) { forall k :: k in h ==> CanonicalKey(k) == k }

  function Get(h: Header, key: string): (value: string) {
    if CanonicalKey(key) in h && h[CanonicalKey(key)] != [] then h[CanonicalKey(key)][0] else ""
  }

  predicate Covered(lower: string) {
    lower == "host" || lower == "content-type" || T.HasPrefix(lower, "x-amz-")
  }

  /** The names a signature over the header must list. */
  ghost predicate Listed(h: Header, name: string) {
    name == "host" || (Covered(name) && exists k :: k in h && T.Lower(k) == name)
  }

  // Lower case and canonical form determine each other.

  lemma {:induction false} CapitalizedIgnoresCase(s: string, upper: bool)
    ensures Capitalized(T.Lower(s), upper) == Capitalized(s, upper)
  {
    if s != "" {
      CapitalizedIgnoresCase(s[1..], s[0] == '-');
      assert T.LowerChar(s[0]) == '-' <==> s[0] == '-';
      assert T.Lower(s)[1..] == T.Lower(s[1..]);
    }
  }

  lemma LowerIsInjective(a: string, b: string)
    requires CanonicalKey(a) == a && CanonicalKey(b) == b && T.Lower(a) == T.Lower(b)
    ensures a == b
  {
    CapitalizedIgnoresCase(a, true);
    CapitalizedIgnoresCase(b, true);
  }

  // The order of sort.Strings.

  predicate Less(a: string, b: string)
    decreases |a|
  {
    b != "" && (a == "" || a[0] < b[0] || (a[0] == b[0] && Less(a[1..], b[1..])))
  }

  lemma {:induction false} LessIsAsymmetric(a: string, b: string)
    requires Less(a, b)
    ensures !Less(b, a)
    decreases |a|
  {
    if a != "" && a[0] == b[0] { LessIsAsymmetric(a[1..], b[1..]); }
  }

  lemma {:induction false} LessIsTotal(a: string, b: string)
    requires a != b
    ensures Less(a, b) || Less(b, a)
    decreases |a|
  {
    if a != "" && b != "" && a[0] == b[0] {
      assert a == [a[0]] + a[1..] && b == [b[0]] + b[1..];
      LessIsTotal(a[1..], b[1..]);
    }
  }

  lemma {:induction false} LessIsTransitive(a: string, b: string, c: string)
    requires Less(a, b) && Less(b, c)
    ensures Less(a, c)
    decreases |a|
  {
    if a != "" && a[0] == b[0] && b[0] == c[0] { LessIsTransitive(a[1..], b[1..], c[1..]); }
  }

  /** The order written out: a proper prefix comes first, and else the smaller character at the first
      difference. */
  predicate ComesBefore(a: string, b: string) {
    a < b || exists i :: 0 <= i < |a| && i < |b| && a[..i] == b[..i] && a[i] < b[i]
  }

  /** A difference behind one character, and the same without it. */
  lemma DifferenceMoves(a: string, b: string, c: char)
    ensures ComesBefore(a, b) ==> ComesBefore([c] + a, [c] + b)
    ensures ComesBefore([c] + a, [c] + b) ==> ComesBefore(a, b)
  {
    var ca, cb := [c] + a, [c] + b;
    if a < b {
      assert ca < cb;
    } else if ComesBefore(a, b) {
      DifferenceOn(a, b, c);
    }
    if ca < cb {
      assert a == ca[1..] && b == cb[1..] && a < b;
    } else if ComesBefore(ca, cb) {
      DifferenceBack(a, b, c);
    }
  }

  lemma DifferenceOn(a: string, b: string, c: char)
    requires exists i :: 0 <= i < |a| && i < |b| && a[..i] == b[..i] && a[i] < b[i]
    ensures ComesBefore([c] + a, [c] + b)
  {
    var ca, cb := [c] + a, [c] + b;
    var i :| 0 <= i < |a| && i < |b| && a[..i] == b[..i] && a[i] < b[i];
    assert ca[..i + 1] == [c] + a[..i] && cb[..i + 1] == [c] + b[..i] && ca[i + 1] < cb[i + 1];
  }

  lemma DifferenceBack(a: string, b: string, c: char)
    requires exists i :: 0 <= i < |[c] + a| && i < |[c] + b| && ([c] + a)[..i] == ([c] + b)[..i] && ([c] + a)[i] < ([c] + b)[i]
    ensures ComesBefore(a, b)
  {
    var ca, cb := [c] + a, [c] + b;
    var i :| 0 <= i < |ca| && i < |cb| && ca[..i] == cb[..i] && ca[i] < cb[i];
    assert a[..i - 1] == ca[..i][1..] && b[..i - 1] == cb[..i][1..] && a[i - 1] < b[i - 1];
  }

  lemma {:induction false} LessExactly(a: string, b: string)
    ensures Less(a, b) <==> ComesBefore(a, b)
    decreases |a|
  {
    if a != "" && b != "" && a[0] == b[0] {
      LessExactly(a[1..], b[1..]);
      DifferenceMoves(a[1..], b[1..], a[0]);
      assert a == [a[0]] + a[1..] && b == [a[0]] + b[1..];
    } else if a != "" && b != "" && a[0] < b[0] {
      assert a[..0] == b[..0];
    }
  }

  predicate Distinct<E(==)>(s: seq<E>) { forall i, j :: 0 <= i < j < |s| ==> s[i] != s[j] }

  /** What sort.Strings promises. */
  ghost predicate SortOf(sorted: seq<string>, names: seq<string>) {
    multiset(sorted) == multiset(names) && forall i, j :: 0 <= i < j < |sorted| ==> !Less(sorted[j], sorted[i])
  }

  lemma {:induction false} DistinctByCount(s: seq<string>)
    ensures Distinct(s) <==> forall x :: multiset(s)[x] <= 1
  {
    if s != [] {
      var head, last := s[..|s| - 1], s[|s| - 1];
      assert s == head + [last];
      DistinctByCount(head);
      assert multiset(s) == multiset(head) + multiset{last};
      if Distinct(s) {
        assert last !in multiset(head);
      } else if Distinct(head) {
        var i :| 0 <= i < |head| && head[i] == last;
        assert last in multiset(head);
        assert multiset(s)[last] > 1;
      } else {
        var x :| multiset(head)[x] > 1;
        assert multiset(s)[x] > 1;
      }
    }
  }

  /** Sorting distinct names makes them strictly increasing, whatever the algorithm. */
  lemma SortIncreases(sorted: seq<string>, names: seq<string>)
    requires SortOf(sorted, names) && Distinct(names)
    ensures Increasing(sorted, Less)
    ensures forall x :: x in sorted <==> x in names
  {
    DistinctByCount(names);
    DistinctByCount(sorted);
    forall i, j | 0 <= i < j < |sorted| ensures Less(sorted[i], sorted[j]) {
      LessIsTotal(sorted[i], sorted[j]);
    }
    forall x ensures x in sorted <==> x in names {
      assert x in sorted <==> x in multiset(sorted);
      assert x in names <==> x in multiset(names);
    }
  }

  /** An iteration over a map visits every key once. */
  ghost predicate Visits(order: seq<string>, h: Header) {
    Distinct(order) && forall k :: k in order <==> k in h
  }

  ghost predicate Occurs(order: seq<string>, name: string) {
    exists j :: 0 <= j < |order| && T.Lower(order[j]) == name
  }

  lemma OccursOneMore(order: seq<string>, i: nat)
    requires i < |order|
    ensures forall n :: Occurs(order[..i + 1], n) <==> Occurs(order[..i], n) || n == T.Lower(order[i])
  {}

  lemma NewNameIsNew(order: seq<string>, h: Header, i: nat)
    requires Visits(order, h) && CanonicalKeys(h) && i < |order|
    ensures !Occurs(order[..i], T.Lower(order[i]))
  {
    forall j | 0 <= j < i ensures T.Lower(order[j]) != T.Lower(order[i]) {
      assert order[j] in order && order[i] in order;
      if T.Lower(order[j]) == T.Lower(order[i]) { LowerIsInjective(order[j], order[i]); }
    }
  }

  lemma OccursMeansPresent(order: seq<string>, h: Header)
    requires Visits(order, h)
    ensures forall n :: Occurs(order, n) <==> exists k :: k in h && T.Lower(k) == n
  {
    forall k | k in h ensures Occurs(order, T.Lower(k)) {
      assert k in order;
    }
    forall j | 0 <= j < |order| ensures order[j] in h {
      assert order[j] in order;
    }
  }

  /** The loop over the header map. */
  method CoveredNames(order: seq<string>, ghost h: Header) returns (names: seq<string>)
    requires Visits(order, h) && CanonicalKeys(h)
    ensures Distinct(names)
    ensures forall n :: n in names <==> Covered(n) && Occurs(order, n)
  {
    names := [];
    for i := 0 to |order|
      invariant Distinct(names)
      invariant forall n :: n in names <==> Covered(n) && Occurs(order[..i], n)
    {
      var lower := T.Lower(order[i]);
      NewNameIsNew(order, h, i);
      OccursOneMore(order, i);
      match lower {
        case "host" => names := names + [lower];
        case "content-type" => names := names + [lower];
        case _ =>
          if T.HasPrefix(lower, "x-amz-") { names := names + [lower]; }
      }
    }
    assert order[..|order|] == order;
  }

  /** signedHeaderNames, for an iteration order of the header map. */
  method SignedHeaderNames(order: seq<string>, ghost h: Header) returns (names: seq<string>)
    requires Visits(order, h) && CanonicalKeys(h)
    ensures Distinct(names)
    ensures forall n :: n in names <==> Listed(h, n)
  {
    names := CoveredNames(order, h);
    OccursMeansPresent(order, h);
    if |names| == 0 { names := ["host"]; }
    var hasHost := false;
    for i := 0 to |names|
      invariant !hasHost && "host" !in names[..i]
    {
      if names[i] == "host" {
        hasHost := true;
        break;
      }
    }
    if !hasHost { names := names + ["host"]; }
  }

  /** The block of canonical headers over a list of names. */
  function Block(names: seq<string>, h: Header, blank: char -> bool): (block: string) {
    if names == [] then ""
    else Block(names[..|names| - 1], h, blank)
         + names[|names| - 1] + ":" + T.Trim(Get(h, names[|names| - 1]), blank) + "\n"
  }

  method CanonicalHeaders(names: seq<string>, h: Header, blank: char -> bool) returns (block: string)
    ensures block == Block(names, h, blank)
    ensures CanonicalKeys(h) && OneLine(names, h) ==> ReadsAs(block, names, h, blank)
  {
    block := "";
    for i := 0 to |names|
      invariant block == Block(names[..i], h, blank)
    {
      block := block + names[i];
      block := block + ":";
      block := block + T.Trim(Get(h, CanonicalKey(names[i])), blank);
      block := block + "\n";
      CanonicalTwice(names[i], true);
      assert names[..i + 1][..i] == names[..i];
    }
    assert names[..|names|] == names;
    if CanonicalKeys(h) && OneLine(names, h) { BlockReads(names, h, blank); }
  }

  // How the block is read: cut at newlines and then at the first colon.

  const NEWLINE := '\n'

  ghost predicate OneLine(names: seq<string>, h: Header) {
    (forall n :: n in names ==> NEWLINE !in n) && forall k, v :: k in h && v in h[k] ==> NEWLINE !in v
  }

  function Line(name: string, h: Header, blank: char -> bool): (line: string) {
    name + ":" + T.Trim(Get(h, name), blank)
  }

  lemma LineIsOne(name: string, h: Header, blank: char -> bool)
    requires NEWLINE !in name && forall k, v :: k in h && v in h[k] ==> NEWLINE !in v
    ensures NEWLINE !in Line(name, h, blank)
  {
    T.TrimFacts(Get(h, name), blank);
    assert NEWLINE !in Get(h, name);
  }

  function LinesOf(names: seq<string>, h: Header, blank: char -> bool): (lines: seq<string>)
    ensures |lines| == |names| && forall i :: 0 <= i < |names| ==> lines[i] == Line(names[i], h, blank)
  {
    seq(|names|, i requires 0 <= i < |names| => Line(names[i], h, blank))
  }

  lemma Regroup(before: string, name: string, value: string)
    ensures before + name + ":" + value + "\n" == before + (name + ":" + value + [NEWLINE] + "")
  {}

  lemma BlockOneMore(init: seq<string>, last: string, h: Header, blank: char -> bool)
    ensures Block(init + [last], h, blank) == Block(init, h, blank) + (Line(last, h, blank) + [NEWLINE] + "")
    ensures LinesOf(init + [last], h, blank) == LinesOf(init, h, blank) + [Line(last, h, blank)]
  {
    var names := init + [last];
    assert names[..|names| - 1] == init && names[|names| - 1] == last;
    Regroup(Block(init, h, blank), last, T.Trim(Get(h, last), blank));
  }

  lemma {:induction false} BlockSplits(names: seq<string>, h: Header, blank: char -> bool)
    requires OneLine(names, h)
    ensures T.Split(Block(names, h, blank), NEWLINE) == LinesOf(names, h, blank) + [""]
  {
    if names == [] {
      T.SplitWithout("", NEWLINE);
    } else {
      var init, last := names[..|names| - 1], names[|names| - 1];
      assert names == init + [last];
      BlockSplits(init, h, blank);
      LineIsOne(last, h, blank);
      BlockOneMore(init, last, h, blank);
      OneMoreLine(Block(init, h, blank), Line(last, h, blank));
    }
  }

  lemma OneMoreLine(before: string, line: string)
    requires var lines := T.Split(before, NEWLINE); lines[|lines| - 1] == ""
    requires NEWLINE !in line
    ensures var lines := T.Split(before, NEWLINE);
            T.Split(before + (line + [NEWLINE] + ""), NEWLINE) == lines[..|lines| - 1] + [line, ""]
  {
    T.SplitAcross(line, "", NEWLINE);
    T.SplitWithout(line, NEWLINE);
    T.SplitWithout("", NEWLINE);
    T.SplitAfterSep(before, line + [NEWLINE] + "", NEWLINE);
  }

  /** No newlines in keys and values, as http.Header has none. */
  ghost predicate Lines(h: Header) {
    forall k :: k in h ==> NEWLINE !in k && forall v :: v in h[k] ==> NEWLINE !in v
  }

  lemma LowerIsOneLine(k: string)
    requires NEWLINE !in k
    ensures NEWLINE !in T.Lower(k)
  {
    T.LowerAt(k);
    forall i | 0 <= i < |k| ensures T.Lower(k)[i] != NEWLINE { assert k[i] in k; }
  }

  lemma ListedIsOneLine(names: seq<string>, h: Header)
    requires Lines(h) && forall n :: n in names ==> Listed(h, n)
    ensures OneLine(names, h)
  {
    forall n | n in names ensures NEWLINE !in n {
      if n != "host" {
        var k :| k in h && T.Lower(k) == n;
        LowerIsOneLine(k);
      }
    }
  }

  /** What the line of a name says: the name, a colon, and the header's first value, trimmed. */
  ghost predicate Says(line: string, name: string, h: Header, blank: char -> bool) {
    && name + ":" <= line
    && forall k :: k in h && h[k] != [] && T.Lower(k) == name ==> T.TrimsTo(h[k][0], line[|name| + 1..], blank)
  }

  /** The block has a line for every name, in order, and nothing else. */
  ghost predicate ReadsAs(block: string, names: seq<string>, h: Header, blank: char -> bool) {
    var lines := T.Split(block, NEWLINE);
    && |lines| == |names| + 1 && lines[|names|] == ""
    && forall i :: 0 <= i < |names| ==> Says(lines[i], names[i], h, blank)
  }

  lemma LineSays(name: string, h: Header, blank: char -> bool)
    requires CanonicalKeys(h)
    ensures Says(Line(name, h, blank), name, h, blank)
  {
    var line := Line(name, h, blank);
    assert line[|name| + 1..] == T.Trim(Get(h, name), blank);
    forall k | k in h && h[k] != [] && T.Lower(k) == name ensures T.TrimsTo(h[k][0], line[|name| + 1..], blank) {
      ListedValueIsItsOwn(h, k);
      T.TrimIsThere(h[k][0], blank);
    }
  }

  /** Reading the block of a header whose names and values are lines gives back the names and, trimmed,
      the values. */
  lemma BlockReads(names: seq<string>, h: Header, blank: char -> bool)
    requires CanonicalKeys(h) && OneLine(names, h)
    ensures ReadsAs(Block(names, h, blank), names, h, blank)
  {
    BlockSplits(names, h, blank);
    var lines := T.Split(Block(names, h, blank), NEWLINE);
    forall i | 0 <= i < |names| ensures Says(lines[i], names[i], h, blank) {
      LineSays(names[i], h, blank);
    }
  }

  /** What is signed is determined: headers with one block have the same names listed, with the same
      values but for blanks around them. */
  lemma BlockDetermines(names1: seq<string>, h1: Header, names2: seq<string>, h2: Header, blank: char -> bool)
    requires OneLine(names1, h1) && OneLine(names2, h2)
    requires forall n :: n in names1 || n in names2 ==> ':' !in n
    requires Block(names1, h1, blank) == Block(names2, h2, blank)
    ensures names1 == names2
    ensures forall n :: n in names1 ==> T.Trim(Get(h1, n), blank) == T.Trim(Get(h2, n), blank)
  {
    BlockSplits(names1, h1, blank);
    BlockSplits(names2, h2, blank);
    forall i | 0 <= i < |names1|
      ensures names1[i] == names2[i] && T.Trim(Get(h1, names1[i]), blank) == T.Trim(Get(h2, names2[i]), blank)
    {
      var lines := T.Split(Block(names1, h1, blank), NEWLINE);
      assert lines[i] == LinesOf(names1, h1, blank)[i] == LinesOf(names2, h2, blank)[i];
      LineDetermines(names1[i], T.Trim(Get(h1, names1[i]), blank), names2[i], T.Trim(Get(h2, names2[i]), blank));
    }
  }

  lemma LineDetermines(n1: string, v1: string, n2: string, v2: string)
    requires ':' !in n1 && ':' !in n2 && n1 + ":" + v1 == n2 + ":" + v2
    ensures n1 == n2 && v1 == v2
  {
    T.SplitAcross(n1, v1, ':');
    T.SplitAcross(n2, v2, ':');
    T.SplitWithout(n1, ':');
    T.SplitWithout(n2, ':');
    assert T.Split(n1 + ":" + v1, ':')[0] == n1 && T.Split(n2 + ":" + v2, ':')[0] == n2;
    assert (n1 + ":" + v1)[|n1| + 1..] == v1 && (n2 + ":" + v2)[|n2| + 1..] == v2;
  }

  lemma {:induction false} CanonicalTwice(s: string, upper: bool)
    ensures Capitalized(Capitalized(s, upper), upper) == Capitalized(s, upper)
  {
    if s != "" {
      CanonicalTwice(s[1..], s[0] == '-');
      var c := Capitalized(s, upper);
      assert c[1..] == Capitalized(s[1..], s[0] == '-');
      assert c[0] == '-' <==> s[0] == '-';
    }
  }

  /** Whatever order the map is visited in and however the names are sorted: the signed list is
      strictly increasing, and lists host, at one place. */
  lemma HostIsListedOnce(h: Header, names: seq<string>, sorted: seq<string>)
    requires Distinct(names) && (forall n :: n in names <==> Listed(h, n)) && SortOf(sorted, names)
    ensures Increasing(sorted, Less)
    ensures "host" in sorted && Distinct(sorted)
  {
    SortIncreases(sorted, names);
    assert Listed(h, "host");
    assert "host" in sorted;
    forall i, j | 0 <= i < j < |sorted| ensures sorted[i] != sorted[j] {
      LessIsAsymmetric(sorted[i], sorted[j]);
    }
  }

  /** Two visits of the same header, in any orders and sorted by any algorithms, sign the same list
      and the same block. */
  lemma OrderDoesNotMatter(h: Header, names1: seq<string>, sorted1: seq<string>, names2: seq<string>, sorted2: seq<string>,
                           blank: char -> bool)
    requires Distinct(names1) && (forall n :: n in names1 <==> Listed(h, n)) && SortOf(sorted1, names1)
    requires Distinct(names2) && (forall n :: n in names2 <==> Listed(h, n)) && SortOf(sorted2, names2)
    ensures sorted1 == sorted2
    ensures Block(sorted1, h, blank) == Block(sorted2, h, blank)
  {
    SortIncreases(sorted1, names1);
    SortIncreases(sorted2, names2);
    forall x, y | Less(x, y) ensures !Less(y, x) { LessIsAsymmetric(x, y); }
    IncreasingUnique(sorted1, sorted2, Less);
  }

  /** A name listed because of a header is signed with that header's own value. */
  lemma ListedValueIsItsOwn(h: Header, k: string)
    requires CanonicalKeys(h) && k in h && h[k] != []
    ensures Get(h, T.Lower(k)) == h[k][0]
  {
    CapitalizedIgnoresCase(k, true);
  }

  /** The header as it is completed before names are listed. */
  function Completed(h: Header, date: string, urlHost: string): (h': Header) {
    var dated := h["X-Amz-Date" := [date]];
    if Get(dated, "Host") == "" then dated["Host" := [urlHost]] else dated
  }

  /** The character the canonical form has at a position. */
  function CapitalAt(s: string, upper: bool, i: nat): (c: char)
    requires i < |s|
  {
    if (i == 0 && upper) || (i > 0 && s[i - 1] == '-') then UpperChar(s[i]) else T.LowerChar(s[i])
  }

  lemma {:induction false} CapitalizedAt(s: string, upper: bool)
    ensures |Capitalized(s, upper)| == |s|
    ensures forall i :: 0 <= i < |s| ==> Capitalized(s, upper)[i] == CapitalAt(s, upper, i)
  {
    if s != "" {
      var rest := s[1..];
      CapitalizedAt(rest, s[0] == '-');
      forall i | 0 <= i < |s| ensures Capitalized(s, upper)[i] == CapitalAt(s, upper, i) {
        if i > 0 {
          assert Capitalized(s, upper)[i] == Capitalized(rest, s[0] == '-')[i - 1];
          assert CapitalAt(rest, s[0] == '-', i - 1) == CapitalAt(s, upper, i);
        }
      }
    }
  }

  lemma DateKeyIsCanonical()
    ensures CanonicalKey("X-Amz-Date") == "X-Amz-Date"
  {
    var date := "X-Amz-Date";
    CapitalizedAt(date, true);
    forall i | 0 <= i < |date| ensures CapitalAt(date, true, i) == date[i] {}
  }

  lemma DateKeyInLower()
    ensures T.Lower("X-Amz-Date") == "x-amz-date"
  {
    var date, lower := "X-Amz-Date", "x-amz-date";
    T.LowerAt(date);
    forall i | 0 <= i < |date| ensures T.LowerChar(date[i]) == lower[i] {}
  }

  lemma HostInLower()
    ensures T.Lower("Host") == "host"
  {
    var host, lower := "Host", "host";
    T.LowerAt(host);
    forall i | 0 <= i < |host| ensures T.LowerChar(host[i]) == lower[i] {}
  }

  lemma HostKeyIsCanonical()
    ensures CanonicalKey("Host") == "Host"
  {
    var host := "Host";
    CapitalizedAt(host, true);
    forall i | 0 <= i < |host| ensures CapitalAt(host, true, i) == host[i] {}
  }

  lemma CompletedFacts(h: Header, date: string, urlHost: string)
    requires CanonicalKeys(h)
    ensures CanonicalKeys(Completed(h, date, urlHost))
    ensures Listed(Completed(h, date, urlHost), "x-amz-date")
    ensures Get(Completed(h, date, urlHost), "x-amz-date") == date
    ensures "Host" in Completed(h, date, urlHost) && Completed(h, date, urlHost)["Host"] != []
  {
    var h' := Completed(h, date, urlHost);
    DateKeyIsCanonical();
    DateKeyInLower();
    HostKeyIsCanonical();
    ListedValueIsItsOwn(h', "X-Amz-Date");
  }

  /** Completing sets the date, and the host unless the header has one; it touches nothing else. */
  lemma CompletedExactly(h: Header, date: string, urlHost: string)
    ensures var h' := Completed(h, date, urlHost);
            && h' - {"X-Amz-Date", "Host"} == h - {"X-Amz-Date", "Host"}
            && "X-Amz-Date" in h' && h'["X-Amz-Date"] == [date] && "Host" in h'
            && h'["Host"] == if "Host" in h && h["Host"] != [] && h["Host"][0] != "" then h["Host"] else [urlHost]
  {
    HostKeyIsCanonical();
    assert |"X-Amz-Date"| != |"Host"|;
  }

  /** What is signed of a completed header: its host, content type and x-amz- headers, in order, and the
      block tells their values. */
  ghost predicate Signs(signed: seq<string>, h: Header, block: string, blank: char -> bool) {
    && (forall i, j :: 0 <= i < j < |signed| ==> ComesBefore(signed[i], signed[j]))
    && (forall n :: n in signed ==> exists k :: k in h && T.Lower(k) == n)
    && (forall k :: k in h ==>
          (T.Lower(k) in signed <==> T.Lower(k) == "host" || T.Lower(k) == "content-type" || "x-amz-" <= T.Lower(k)))
    && (Lines(h) ==> ReadsAs(block, signed, h, blank))
  }

  lemma SignedExactly(signed: seq<string>, h: Header, blank: char -> bool)
    requires CanonicalKeys(h) && "Host" in h
    requires Increasing(signed, Less) && forall n :: n in signed <==> Listed(h, n)
    ensures Signs(signed, h, Block(signed, h, blank), blank)
  {
    HostInLower();
    forall i, j | 0 <= i < j < |signed| ensures ComesBefore(signed[i], signed[j]) { LessExactly(signed[i], signed[j]); }
    if Lines(h) {
      ListedIsOneLine(signed, h);
      BlockReads(signed, h, blank);
    }
  }

  /** The part of signS3Request that chooses and writes the headers, for any iteration order of the
      completed map and any sorting algorithm. */
  method SignRequest(h: Header, date: string, urlHost: string, order: seq<string>, sort: seq<string> -> seq<string>,
                     blank: char -> bool)
    returns (h': Header, signed: seq<string>, block: string)
    requires CanonicalKeys(h) && Visits(order, Completed(h, date, urlHost))
    requires forall names: seq<string> :: SortOf(sort(names), names)
    ensures h' == Completed(h, date, urlHost) && CanonicalKeys(h')
    ensures Increasing(signed, Less) && Distinct(signed)
    ensures forall n :: n in signed <==> Listed(h', n)
    ensures "host" in signed && "x-amz-date" in signed
    ensures block == Block(signed, h', blank)
    ensures Signs(signed, h', block, blank)
    ensures h' - {"X-Amz-Date", "Host"} == h - {"X-Amz-Date", "Host"}
    ensures "X-Amz-Date" in h' && h'["X-Amz-Date"] == [date] && "Host" in h'
    ensures h'["Host"] == if "Host" in h && h["Host"] != [] && h["Host"][0] != "" then h["Host"] else [urlHost]
  {
    h' := h["X-Amz-Date" := [date]];
    if Get(h', "Host") == "" { h' := h'["Host" := [urlHost]]; }
    CompletedFacts(h, date, urlHost);
    var names := SignedHeaderNames(order, h');
    signed := sort(names);
    HostIsListedOnce(h', names, signed);
    SortIncreases(signed, names);
    block := CanonicalHeaders(signed, h', blank);
    CompletedExactly(h, date, urlHost);
    SignedExactly(signed, h', blank);
  }
}
