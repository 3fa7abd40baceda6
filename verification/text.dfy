/** Byte-wise string order, sorting by a string key, cutting at separators and decimal numerals. */
module Text {
  import opened Types

  // ----- Order

  predicate Less(a: string, b: string) {
    b != "" && (a == "" || a[0] < b[0] || (a[0] == b[0] && Less(a[1..], b[1..])))
  }

  predicate Leq(a: string, b: string) {
    !Less(b, a)
  }

  /** The texts agree up to place n, where the first one ends or has the lesser byte. */
  predicate PartsAt(a: string, b: string, n: nat) {
    n <= |a| && n < |b| && a[..n] == b[..n] && (n == |a| || a[n] < b[n])
  }

  /** Less is byte order. */
  lemma {:induction false} LessIsByteOrder(a: string, b: string)
    ensures Less(a, b) <==> exists n: nat :: PartsAt(a, b, n)
  {
    if a == "" || b == "" || a[0] != b[0] {
      if Less(a, b) {
        assert PartsAt(a, b, 0);
      }
    } else {
      LessIsByteOrder(a[1..], b[1..]);
      if Less(a, b) {
        var n: nat :| PartsAt(a[1..], b[1..], n);
        assert a[..n + 1] == [a[0]] + a[1..][..n] && b[..n + 1] == [b[0]] + b[1..][..n];
        assert PartsAt(a, b, n + 1);
      }
      if n: nat :| PartsAt(a, b, n) {
        assert a[1..][..n - 1] == a[..n][1..] && b[1..][..n - 1] == b[..n][1..];
        assert PartsAt(a[1..], b[1..], n - 1);
      }
    }
  }

  lemma LeqExactly(a: string, b: string)
    ensures Leq(a, b) <==> a == b || Less(a, b)
  {
    LessTotal(a, b);
  }

  lemma {:induction false} LessTotal(a: string, b: string)
    ensures Less(a, b) || a == b || Less(b, a)
    ensures !(Less(a, b) && Less(b, a))
    ensures !Less(a, a)
  {
    if a != "" && b != "" {
      LessTotal(a[1..], b[1..]);
      assert a == [a[0]] + a[1..] && b == [b[0]] + b[1..];
    }
    if a != "" {
      LessTotal(a[1..], a[1..]);
    }
  }

  lemma {:induction false} LessTransitive(a: string, b: string, c: string)
    requires Less(a, b) && Less(b, c)
    ensures Less(a, c)
  {
    if a != "" && a[0] == b[0] == c[0] {
      LessTransitive(a[1..], b[1..], c[1..]);
    }
  }

  lemma LeqTransitive(a: string, b: string, c: string)
    requires Leq(a, b) && Leq(b, c)
    ensures Leq(a, c)
  {
    LessTotal(a, b);
    LessTotal(b, c);
    if Less(a, b) && Less(b, c) {
      LessTransitive(a, b, c);
      LessTotal(a, c);
    }
  }

  // ----- Sorting

  ghost predicate Sorted(s: seq<string>) {
    forall i, j :: 0 <= i < j < |s| ==> Leq(s[i], s[j])
  }

  function Insert(x: string, s: seq<string>): (r: seq<string>)
    requires Sorted(s)
    ensures Sorted(r)
    ensures multiset(r) == multiset{x} + multiset(s)
  {
    if s == [] || Leq(x, s[0]) then
      InsertFront(x, s);
      [x] + s
    else
      var t := Insert(x, s[1..]);
      InsertBehind(x, s, t);
      [s[0]] + t
  }

  lemma InsertFront(x: string, s: seq<string>)
    requires Sorted(s)
    requires s == [] || Leq(x, s[0])
    ensures Sorted([x] + s)
    ensures multiset([x] + s) == multiset{x} + multiset(s)
  {
    var r := [x] + s;
    forall i, j | 0 <= i < j < |r| ensures Leq(r[i], r[j]) {
      if i == 0 && j > 1 {
        LeqTransitive(x, s[0], s[j - 1]);
      }
    }
  }

  lemma InsertBehind(x: string, s: seq<string>, t: seq<string>)
    requires s != [] && Sorted(s) && !Leq(x, s[0])
    requires Sorted(t) && multiset(t) == multiset{x} + multiset(s[1..])
    ensures Sorted([s[0]] + t)
    ensures multiset([s[0]] + t) == multiset{x} + multiset(s)
  {
    assert s == [s[0]] + s[1..];
    LessTotal(x, s[0]);
    forall j | 0 <= j < |t| ensures Leq(s[0], t[j]) {
      assert t[j] in multiset(t);
      if t[j] != x {
        assert t[j] in s[1..];
      }
    }
  }

  /** slices.Sort on strings. */
  function Sort(s: seq<string>): (r: seq<string>)
    ensures Sorted(r)
    ensures multiset(r) == multiset(s)
  {
    if s == [] then [] else
      assert s == [s[0]] + s[1..];
      Insert(s[0], Sort(s[1..]))
  }

  /** A sorted list is determined by its contents, so the listing order it came from is forgotten. */
  lemma {:induction false} SortedUnique(a: seq<string>, b: seq<string>)
    requires Sorted(a) && Sorted(b)
    requires multiset(a) == multiset(b)
    ensures a == b
  {
    if a == [] {
      assert |multiset(b)| == 0;
    } else {
      assert |multiset(b)| == |a|;
      HeadIsLeast(a, b);
      HeadIsLeast(b, a);
      LessTotal(a[0], b[0]);
      SplitHead(a);
      SplitHead(b);
      SortedUnique(a[1..], b[1..]);
      assert a == [a[0]] + a[1..] == [b[0]] + b[1..];
    }
  }

  lemma SplitHead(a: seq<string>)
    requires a != []
    ensures multiset(a[1..]) == multiset(a) - multiset{a[0]}
  {
    assert a == [a[0]] + a[1..];
  }

  lemma HeadIsLeast(a: seq<string>, b: seq<string>)
    requires a != [] && b != [] && Sorted(a)
    requires multiset(a) == multiset(b)
    ensures Leq(a[0], b[0])
  {
    assert b[0] in multiset(a);
    var i :| 0 <= i < |a| && a[i] == b[0];
    LessTotal(a[0], a[0]);
  }

  // ----- Mapping over a list

  function Mapped<A, B>(f: A -> B, s: seq<A>): (r: seq<B>)
    ensures |r| == |s|
    ensures forall i :: 0 <= i < |s| ==> r[i] == f(s[i])
  {
    seq(|s|, i requires 0 <= i < |s| => f(s[i]))
  }

  lemma MappedJoin<A, B>(f: A -> B, s: seq<A>, t: seq<A>)
    ensures Mapped(f, s + t) == Mapped(f, s) + Mapped(f, t)
  {
  }

  lemma MappedWithout<A, B>(f: A -> B, s: seq<A>, i: nat, t: seq<A>)
    requires i < |s| && t == s[..i] + s[i + 1..]
    ensures multiset(t) == multiset(s) - multiset{s[i]}
    ensures multiset(Mapped(f, s)) == multiset(Mapped(f, t)) + multiset{f(s[i])}
  {
    assert s == s[..i] + ([s[i]] + s[i + 1..]);
    MappedJoin(f, s[..i], [s[i]] + s[i + 1..]);
    MappedJoin(f, [s[i]], s[i + 1..]);
    MappedJoin(f, s[..i], s[i + 1..]);
    assert Mapped(f, [s[i]]) == [f(s[i])];
  }

  /** Mapping keeps permutations. */
  lemma {:induction false} MappedPermutation<A, B>(f: A -> B, s: seq<A>, t: seq<A>)
    requires multiset(s) == multiset(t)
    ensures multiset(Mapped(f, s)) == multiset(Mapped(f, t))
    decreases |s|
  {
    if s == [] {
      assert |multiset(t)| == 0;
    } else {
      assert s[0] in multiset(t);
      var j :| 0 <= j < |t| && t[j] == s[0];
      var s', t' := s[..0] + s[1..], t[..j] + t[j + 1..];
      MappedWithout(f, s, 0, s');
      MappedWithout(f, t, j, t');
      MappedPermutation(f, s', t');
    }
  }

  // ----- Cutting at a separator

  /** Text up to the first separator is determined by the whole. */
  lemma CutFront(x: string, r: string, y: string, s: string, sep: char)
    requires sep !in x && sep !in y
    requires x + [sep] + r == y + [sep] + s
    ensures x == y && r == s
  {
    var u := x + [sep] + r;
    var v := y + [sep] + s;
    assert u[|x|] == sep && forall i :: 0 <= i < |x| ==> u[i] == x[i];
    assert v[|y|] == sep && forall i :: 0 <= i < |y| ==> v[i] == y[i];
    assert x == u[..|x|] && y == v[..|y|];
    assert r == u[|x| + 1..] && s == v[|y| + 1..];
  }

  /** Text behind the last separator is determined by the whole. */
  lemma CutBack(r: string, x: string, s: string, y: string, sep: char)
    requires sep !in x && sep !in y
    requires r + [sep] + x == s + [sep] + y
    ensures x == y && r == s
  {
    var u := r + [sep] + x;
    var v := s + [sep] + y;
    assert u[|r|] == sep && forall i :: |r| < i < |u| ==> u[i] == x[i - |r| - 1];
    assert v[|s|] == sep && forall i :: |s| < i < |v| ==> v[i] == y[i - |s| - 1];
    assert r == u[..|r|] && s == v[..|s|];
    assert x == u[|r| + 1..] && y == v[|s| + 1..];
  }

  /** The text before and after the first separator, if there is one. */
  function Cut(s: string, sep: char): (r: Option<(string, string)>)
    ensures r.None? <==> sep !in s
    ensures r.Some? ==> sep !in r.value.0 && s == r.value.0 + [sep] + r.value.1
  {
    if s == "" then None
    else if s[0] == sep then
      Some(("", s[1..]))
    else
      assert s == [s[0]] + s[1..];
      match Cut(s[1..], sep)
      case None => None
      case Some(p) => Some(([s[0]] + p.0, p.1))
  }

  /** strings.SplitN(s, sep, 3). */
  function SplitN3(s: string, sep: char): (parts: seq<string>) {
    match Cut(s, sep)
    case None => [s]
    case Some(p) =>
      match Cut(p.1, sep)
      case None => [p.0, p.1]
      case Some(q) => [p.0, q.0, q.1]
  }

  /** Joining undoes splitting, and only a last part may hold the separator. */
  lemma SplitExactly(s: string, sep: char)
    ensures var parts := SplitN3(s, sep);
            && 1 <= |parts| <= 3
            && (|parts| == 1 ==> s == parts[0] && sep !in s)
            && (|parts| == 2 ==> s == parts[0] + [sep] + parts[1] && sep !in parts[0] && sep !in parts[1])
            && (|parts| == 3 ==>
                 s == parts[0] + [sep] + parts[1] + [sep] + parts[2] && sep !in parts[0] && sep !in parts[1])
  {
    var p := Cut(s, sep);
    if p.Some? {
      var q := Cut(p.value.1, sep);
      if q.Some? {
        assert p.value.0 + [sep] + (q.value.0 + [sep] + q.value.1) == p.value.0 + [sep] + q.value.0 + [sep] + q.value.1;
      }
    }
  }

  /** Splitting undoes joining when the first two parts are free of the separator. */
  lemma SplitJoin(a: string, b: string, c: string, sep: char)
    requires sep !in a && sep !in b
    ensures SplitN3(a + [sep] + b + [sep] + c, sep) == [a, b, c]
  {
    var s := a + [sep] + b + [sep] + c;
    var rest := b + [sep] + c;
    assert s == a + [sep] + rest;
    assert s[|a|] == sep;
    var p := Cut(s, sep).value;
    CutFront(p.0, p.1, a, rest, sep);
    assert rest[|b|] == sep;
    var q := Cut(rest, sep).value;
    CutFront(q.0, q.1, b, c, sep);
  }

  // ----- Decimal numerals

  predicate IsDigit(c: char) {
    '0' <= c <= '9'
  }

  predicate IsDigits(s: string) {
    s != "" && forall i :: 0 <= i < |s| ==> IsDigit(s[i])
  }

  /** "%d" of a natural number. */
  function Decimal(n: nat): (s: string)
    ensures IsDigits(s)
  {
    if n < 10 then [('0' as int + n) as char]
    else Decimal(n / 10) + [('0' as int + n % 10) as char]
  }

  function Value(s: string): (n: nat)
    requires forall i :: 0 <= i < |s| ==> IsDigit(s[i])
  {
    if s == "" then 0
    else
      assert IsDigit(s[|s| - 1]);
      10 * Value(s[..|s| - 1]) + (s[|s| - 1] as int - '0' as int)
  }

  /** Reading back a printed number gives the number, so printing is injective. */
  lemma {:induction false} ValueOfDecimal(n: nat)
    ensures Value(Decimal(n)) == n
  {
    var s := Decimal(n);
    if n < 10 {
      assert s[..0] == "";
    } else {
      ValueOfDecimal(n / 10);
      assert s[..|s| - 1] == Decimal(n / 10);
    }
  }

  /** strconv.ParseInt(s, 10, 32): an optional sign, then digits, within the range of int32. */
  function ParseInt32(s: string): (r: Option<int>)
    ensures r.Some? ==> MIN_INT32 <= r.value <= MAX_INT32
  {
    if s == "" then None
    else
      var signed := s[0] == '+' || s[0] == '-';
      var digits := if signed then s[1..] else s;
      if !IsDigits(digits) then None
      else
        var n: int := if s[0] == '-' then 0 - Value(digits) else Value(digits);
        if MIN_INT32 <= n <= MAX_INT32 then Some(n) else None
  }

  /** A text stands for a number: its digits, possibly behind a sign. */
  predicate Denotes(s: string, digits: string, n: int)
    requires IsDigits(digits)
  {
    || ((s == digits || s == "+" + digits) && n == Value(digits))
    || (s == "-" + digits && n == 0 - Value(digits))
  }

  /** Exactly the numerals of int32 parse, each to its number. */
  lemma ParseInt32Exactly(s: string, n: int)
    ensures ParseInt32(s) == Some(n) <==>
            MIN_INT32 <= n <= MAX_INT32 && exists digits :: IsDigits(digits) && Denotes(s, digits, n)
  {
    if s != "" {
      var digits := if s[0] == '+' || s[0] == '-' then s[1..] else s;
      assert s == [s[0]] + s[1..];
      if ParseInt32(s) == Some(n) {
        assert Denotes(s, digits, n);
      }
      if d :| IsDigits(d) && Denotes(s, d, n) {
        assert IsDigit(d[0]);
        assert d == digits;
      }
    }
  }

  lemma ParsePrinted(n: nat)
    ensures ParseInt32(Decimal(n)) == if n <= MAX_INT32 then Some(n) else None
  {
    ValueOfDecimal(n);
    assert IsDigit(Decimal(n)[0]);
  }

  /** strconv.ParseBool. */
  function ParseBool(s: string): (r: Option<bool>)
    ensures r.Some? ==> s != "" && (if r.value then s[0] in "1tT" else s[0] in "0fF")
  {
    if s in ["1", "t", "T", "TRUE", "true", "True"] then Some(true)
    else if s in ["0", "f", "F", "FALSE", "false", "False"] then Some(false)
    else None
  }

  // ----- Sizes

  lemma SubsetSize<T>(a: set<T>, b: set<T>)
    requires a <= b
    ensures |a| <= |b|
  {
    assert b == a + (b - a);
  }

  lemma OneMoreOf<T>(a: set<T>, x: T, b: set<T>)
    requires a <= b && x in b && x !in a
    ensures |a + {x}| == |a| + 1 <= |b|
  {
    SubsetSize(a + {x}, b);
  }
}
