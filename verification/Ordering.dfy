// The persistent order of ACs: by size, then by name (node_capacity.go:84-96), and the
// per-class candidate lists built from it (node_capacity.go:98-114).

module Ordering {
  import opened Types

  predicate StrLess(a: string, b: string) {
    if b == [] then false
    else if a == [] then true
    else a[0] < b[0] || (a[0] == b[0] && StrLess(a[1..], b[1..]))
  }

  lemma {:induction false} StrLessTotal(a: string, b: string)
    ensures a == b || StrLess(a, b) || StrLess(b, a)
  {
    if a != [] && b != [] && a[0] == b[0] {
      StrLessTotal(a[1..], b[1..]);
      if a[1..] == b[1..] { assert a == [a[0]] + a[1..] == b; }
    }
  }

  lemma {:induction false} StrLessAsymmetric(a: string, b: string)
    ensures !(StrLess(a, b) && StrLess(b, a))
  {
    if a != [] && b != [] { StrLessAsymmetric(a[1..], b[1..]); }
  }

  lemma {:induction false} StrLessTransitive(a: string, b: string, c: string)
    requires StrLess(a, b) && StrLess(b, c)
    ensures StrLess(a, c)
  {
    if a != [] && a[0] == b[0] == c[0] { StrLessTransitive(a[1..], b[1..], c[1..]); }
  }

  /** Go's order of strings: at the first difference the smaller character, and a prefix before what extends it. */
  lemma {:induction false} StrLessIsLexicographic(a: string, b: string)
    ensures StrLess(a, b) <==> exists k :: FirstDifference(a, b, k)
  {
    if a != [] && b != [] && a[0] == b[0] {
      StrLessIsLexicographic(a[1..], b[1..]);
      if k :| FirstDifference(a[1..], b[1..], k) { FirstDifferenceMoves(a, b, k); }
      if k :| FirstDifference(a, b, k) { FirstDifferenceMoves(a, b, k - 1); }
    } else if StrLess(a, b) {
      assert FirstDifference(a, b, 0);
    }
  }

  predicate FirstDifference(a: string, b: string, k: int) {
    0 <= k <= |a| && k < |b| && (forall i :: 0 <= i < k ==> a[i] == b[i]) && (k == |a| || a[k] < b[k])
  }

  lemma FirstDifferenceMoves(a: string, b: string, k: int)
    requires a != [] && b != [] && a[0] == b[0] && 0 <= k
    ensures FirstDifference(a, b, k + 1) <==> FirstDifference(a[1..], b[1..], k)
  {
    if FirstDifference(a, b, k + 1) {
      assert forall i :: 0 <= i < k ==> a[1..][i] == a[i + 1] && b[1..][i] == b[i + 1];
    }
    if FirstDifference(a[1..], b[1..], k) {
      forall i | 0 <= i < k + 1 ensures a[i] == b[i] { if i > 0 { assert a[1..][i - 1] == b[1..][i - 1]; } }
    }
  }

  /** The comparator passed to sort.Slice. */
  predicate ACLess(a: AC, b: AC) {
    if a.size < b.size then true
    else if a.size > b.size then false
    else StrLess(a.name, b.name)
  }

  lemma ACLessTransitive(a: AC, b: AC, c: AC)
    requires ACLess(a, b) && ACLess(b, c)
    ensures ACLess(a, c)
  {
    if a.size == b.size == c.size { StrLessTransitive(a.name, b.name, c.name); }
  }

  lemma ACLessTotal(a: AC, b: AC)
    ensures a.name == b.name || ACLess(a, b) || ACLess(b, a)
    ensures !(ACLess(a, b) && ACLess(b, a))
  {
    StrLessTotal(a.name, b.name);
    StrLessAsymmetric(a.name, b.name);
  }

  ghost predicate StrictlySorted(s: seq<AC>) {
    forall i, j :: 0 <= i < j < |s| ==> ACLess(s[i], s[j])
  }

  ghost predicate SameElements(s: seq<AC>, t: seq<AC>) {
    |s| == |t| && UniqueNames(s) && forall x :: x in s <==> x in t
  }

  method Insert(s: seq<AC>, x: AC) returns (r: seq<AC>)
    requires StrictlySorted(s) && UniqueNames(s) && forall y :: y in s ==> y.name != x.name
    ensures StrictlySorted(r) && UniqueNames(r) && |r| == |s| + 1
    ensures forall y :: y in r <==> y == x || y in s
  {
    var i := 0;
    while i < |s| && ACLess(s[i], x)
      invariant 0 <= i <= |s|
      invariant forall j :: 0 <= j < i ==> ACLess(s[j], x)
    {
      i := i + 1;
    }
    forall j | i <= j < |s| ensures ACLess(x, s[j]) {
      ACLessTotal(x, s[i]);
      if j > i { ACLessTransitive(x, s[i], s[j]); }
    }
    r := s[..i] + [x] + s[i..];
    assert forall y :: y in s ==> y in s[..i] || y in s[i..];
    assert forall y :: y in r <==> y == x || y in s[..i] || y in s[i..];
    InsertedUnique(s, x, i, r);
  }

  lemma InsertedUnique(s: seq<AC>, x: AC, i: nat, r: seq<AC>)
    requires i <= |s| && r == s[..i] + [x] + s[i..]
    requires UniqueNames(s) && forall y :: y in s ==> y.name != x.name
    ensures UniqueNames(r)
  {
    forall a, b | 0 <= a < b < |r| ensures r[a].name != r[b].name {
      var a' := if a < i then a else a - 1;
      var b' := if b < i then b else b - 1;
      if a != i { assert r[a] == s[a']; }
      if b != i { assert r[b] == s[b']; }
    }
  }

  /** sort.Slice by ACLess. With distinct names there is exactly one sorted arrangement. */
  method SortACs(acs: seq<AC>) returns (r: seq<AC>)
    requires UniqueNames(acs)
    ensures StrictlySorted(r) && SameElements(r, acs)
  {
    r := [];
    for i := 0 to |acs|
      invariant StrictlySorted(r) && UniqueNames(r) && |r| == i
      invariant forall y :: y in r <==> y in acs[..i]
    {
      assert acs[..i + 1] == acs[..i] + [acs[i]];
      r := Insert(r, acs[i]);
    }
    assert acs[..|acs|] == acs;
  }

  lemma {:induction false} SortedArrangementUnique(s: seq<AC>, t: seq<AC>)
    requires StrictlySorted(s) && StrictlySorted(t) && SameElements(s, t)
    ensures s == t
  {
    if s != [] {
      if s[0] != t[0] {
        assert s[0] in t && t[0] in s;
        var i :| 0 < i < |t| && t[i] == s[0];
        var j :| 0 < j < |s| && s[j] == t[0];
        ACLessTotal(s[0], t[0]);
        assert false;
      }
      assert forall x :: x in s[1..] <==> x in t[1..] by {
        forall x | x in s[1..] || x in t[1..] ensures x in s[1..] <==> x in t[1..] {
          ACLessTotal(x, s[0]);
          if x in s[1..] { var k :| 1 <= k < |s| && s[k] == x; assert x in t; }
          if x in t[1..] { var k :| 1 <= k < |t| && t[k] == x; assert x in s; }
        }
      }
      SortedArrangementUnique(s[1..], t[1..]);
    }
  }

  // ---- candidate lists ----

  /** The position of an AC class among the classes a request class may use, if any. */
  function Rank(sc: StorageClass, ac: StorageClass): (r: Option<nat>) {
    match sc
    case Any => (match ac
                 case Any => Some(0) case HDD => Some(1) case SSD => Some(2) case NVMe => Some(3)
                 case _ => None)
    case HDDLVG => if ac.HDDLVG? then Some(0) else if ac.HDD? then Some(1) else None
    case SSDLVG => if ac.SSDLVG? then Some(0) else if ac.SSD? then Some(1) else None
    case NVMeLVG => if ac.NVMeLVG? then Some(0) else if ac.NVMe? then Some(1) else None
    case _ => if ac == sc then Some(0) else None
  }

  predicate Compatible(sc: StorageClass, ac: StorageClass) {
    Rank(sc, ac).Some?
  }

  /** The class asked for, any drive for ANY, or the drive that an LVG of the class is made of. */
  predicate ServesClass(ac: StorageClass, sc: StorageClass) {
    || ac == sc
    || (sc.Any? && (ac.HDD? || ac.SSD? || ac.NVMe?))
    || (sc.HDDLVG? && ac.HDD?) || (sc.SSDLVG? && ac.SSD?) || (sc.NVMeLVG? && ac.NVMe?)
  }

  /** x is tried before y for a request of class sc. */
  predicate Before(sc: StorageClass, x: AC, y: AC)
    requires Compatible(sc, x.sc) && Compatible(sc, y.sc)
  {
    var rx, ry := Rank(sc, x.sc).value, Rank(sc, y.sc).value;
    rx < ry || (rx == ry && ACLess(x, y))
  }

  /** The order in words: a request takes its own class first, then - for ANY - HDD, SSD and NVMe in turn; within a class
      the smaller AC, and of two that are equally big the one with the smaller name. */
  lemma BeforeMeans(sc: StorageClass, x: AC, y: AC)
    requires Compatible(sc, x.sc) && Compatible(sc, y.sc)
    ensures x.sc != y.sc ==>
              (Before(sc, x, y) <==> x.sc == sc || (y.sc != sc && (x.sc.HDD? || (x.sc.SSD? && y.sc.NVMe?))))
    ensures x.sc == y.sc ==>
              (Before(sc, x, y) <==> x.size < y.size || (x.size == y.size && exists k :: FirstDifference(x.name, y.name, k)))
  {
    StrLessIsLexicographic(x.name, y.name);
  }

  function OfClass(s: seq<AC>, sc: StorageClass): (r: seq<AC>)
    ensures forall x :: x in r <==> x in s && x.sc == sc
  {
    if s == [] then []
    else
      var last := s[|s| - 1];
      var r := OfClass(s[..|s| - 1], sc) + (if last.sc == sc then [last] else []);
      assert s == s[..|s| - 1] + [last];
      r
  }

  lemma {:induction false} OfClassSorted(s: seq<AC>, sc: StorageClass)
    requires StrictlySorted(s)
    ensures StrictlySorted(OfClass(s, sc))
  {
    if s != [] {
      OfClassSorted(s[..|s| - 1], sc);
      var init := OfClass(s[..|s| - 1], sc);
      forall k | 0 <= k < |init| ensures ACLess(init[k], s[|s| - 1]) {
        assert init[k] in s[..|s| - 1];
        var i :| 0 <= i < |s| - 1 && s[i] == init[k];
      }
    }
  }

  function Names(s: seq<AC>): (r: seq<string>)
    ensures |r| == |s| && forall i :: 0 <= i < |r| ==> r[i] == s[i].name
  {
    seq(|s|, i requires 0 <= i < |s| => s[i].name)
  }

  /** The candidates for a request class, in the order the planner tries them. */
  function OrderFor(s: seq<AC>, sc: StorageClass): seq<AC> {
    match sc
    case Any => OfClass(s, Any) + OfClass(s, HDD) + OfClass(s, SSD) + OfClass(s, NVMe)
    case HDDLVG => OfClass(s, HDDLVG) + OfClass(s, HDD)
    case SSDLVG => OfClass(s, SSDLVG) + OfClass(s, SSD)
    case NVMeLVG => OfClass(s, NVMeLVG) + OfClass(s, NVMe)
    case _ => OfClass(s, sc)
  }

  ghost predicate InOrder(sc: StorageClass, r: seq<AC>) {
    && (forall i :: 0 <= i < |r| ==> Compatible(sc, r[i].sc))
    && (forall i, j :: 0 <= i < j < |r| ==> Before(sc, r[i], r[j]))
  }

  lemma Concatenated(sc: StorageClass, a: seq<AC>, b: seq<AC>)
    requires InOrder(sc, a) && InOrder(sc, b)
    requires forall x, y :: x in a && y in b ==> Rank(sc, x.sc).value < Rank(sc, y.sc).value
    ensures InOrder(sc, a + b)
  {
  }

  lemma OfClassInOrder(s: seq<AC>, sc: StorageClass, c: StorageClass)
    requires StrictlySorted(s) && Compatible(sc, c)
    ensures InOrder(sc, OfClass(s, c))
  {
    OfClassSorted(s, c);
    var r := OfClass(s, c);
    forall i | 0 <= i < |r| ensures r[i].sc == c { assert r[i] in r; }
  }

  /** The list for a class holds exactly the compatible ACs, ordered by class rank, size, name. */
  lemma OrderForIsOrder(s: seq<AC>, sc: StorageClass)
    requires StrictlySorted(s)
    ensures InOrder(sc, OrderFor(s, sc))
    ensures forall x :: x in OrderFor(s, sc) <==> x in s && Compatible(sc, x.sc)
  {
    match sc
    case Any =>
      OfClassInOrder(s, Any, Any);
      OfClassInOrder(s, Any, HDD);
      OfClassInOrder(s, Any, SSD);
      OfClassInOrder(s, Any, NVMe);
      Concatenated(Any, OfClass(s, Any), OfClass(s, HDD));
      Concatenated(Any, OfClass(s, Any) + OfClass(s, HDD), OfClass(s, SSD));
      Concatenated(Any, OfClass(s, Any) + OfClass(s, HDD) + OfClass(s, SSD), OfClass(s, NVMe));
    case HDDLVG =>
      OfClassInOrder(s, sc, HDDLVG);
      OfClassInOrder(s, sc, HDD);
      Concatenated(sc, OfClass(s, HDDLVG), OfClass(s, HDD));
    case SSDLVG =>
      OfClassInOrder(s, sc, SSDLVG);
      OfClassInOrder(s, sc, SSD);
      Concatenated(sc, OfClass(s, SSDLVG), OfClass(s, SSD));
    case NVMeLVG =>
      OfClassInOrder(s, sc, NVMeLVG);
      OfClassInOrder(s, sc, NVMe);
      Concatenated(sc, OfClass(s, NVMeLVG), OfClass(s, NVMe));
    case _ =>
      OfClassInOrder(s, sc, sc);
  }
}
