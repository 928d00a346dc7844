/** Day 23: a LAN party.  Each line links two computers; part 1 counts the triangles of linked
    computers with one name starting with 't', part 2 names the largest group found by a greedy
    clique search, as a sorted comma-joined list. */
module Day23 {
  import opened Common

  /** The network: every computer's set of linked computers. */
  type Lan = map<string, set<string>>

  // ---------------------------------------------------------------------------------------
  // String order

  /** Rust's String order: lexicographic, a proper prefix first. */
  predicate Less(a: string, b: string)
    decreases |a|
  {
    b != [] && (a == [] || a[0] < b[0] || (a[0] == b[0] && Less(a[1..], b[1..])))
  }

  predicate LessEq(a: string, b: string)
  {
    a == b || Less(a, b)
  }

  lemma {:induction false} LessIrreflexive(a: string)
    ensures !Less(a, a)
    decreases |a|
  {
    if a != [] {
      LessIrreflexive(a[1..]);
    }
  }

  lemma {:induction false} LessAsymmetric(a: string, b: string)
    requires Less(a, b)
    ensures !Less(b, a)
    decreases |a|
  {
    if a != [] && a[0] == b[0] {
      LessAsymmetric(a[1..], b[1..]);
    }
  }

  lemma {:induction false} LessTransitive(a: string, b: string, c: string)
    requires Less(a, b) && Less(b, c)
    ensures Less(a, c)
    decreases |a|
  {
    if a != [] && a[0] == b[0] && b[0] == c[0] {
      LessTransitive(a[1..], b[1..], c[1..]);
    }
  }

  /** Two different strings are ordered one way or the other. */
  lemma {:induction false} LessTotal(a: string, b: string)
    requires a != b
    ensures Less(a, b) || Less(b, a)
    decreases |a|
  {
    if a != [] && b != [] && a[0] == b[0] {
      assert a == [a[0]] + a[1..] && b == [b[0]] + b[1..];
      LessTotal(a[1..], b[1..]);
    }
  }

  /** The order facts among three strings. */
  lemma Order3(a: string, b: string, c: string)
    ensures LessEq(a, b) || LessEq(b, a)
    ensures LessEq(a, c) || LessEq(c, a)
    ensures LessEq(b, c) || LessEq(c, b)
    ensures LessEq(a, b) && LessEq(b, a) ==> a == b
    ensures LessEq(a, c) && LessEq(c, a) ==> a == c
    ensures LessEq(b, c) && LessEq(c, b) ==> b == c
    ensures LessEq(a, b) && LessEq(b, c) ==> LessEq(a, c)
    ensures LessEq(b, a) && LessEq(a, c) ==> LessEq(b, c)
    ensures LessEq(a, c) && LessEq(c, b) ==> LessEq(a, b)
    ensures LessEq(c, b) && LessEq(b, a) ==> LessEq(c, a)
    ensures LessEq(b, c) && LessEq(c, a) ==> LessEq(b, a)
    ensures LessEq(c, a) && LessEq(a, b) ==> LessEq(c, b)
  {
    forall x, y | x in [a, b, c] && y in [a, b, c] && x != y
      ensures Less(x, y) || Less(y, x)
      ensures Less(x, y) ==> !Less(y, x)
    {
      LessTotal(x, y);
      if Less(x, y) {
        LessAsymmetric(x, y);
      }
    }
    forall x, y, z | x in [a, b, c] && y in [a, b, c] && z in [a, b, c] && Less(x, y) && Less(y, z)
      ensures Less(x, z)
    {
      LessTransitive(x, y, z);
    }
  }

  /** `vec![k, a, b].sort()` as a tuple. */
  function Sort3(a: string, b: string, c: string): (string, string, string)
  {
    if LessEq(a, b) then
      if LessEq(b, c) then (a, b, c) else if LessEq(a, c) then (a, c, b) else (c, a, b)
    else
      if LessEq(a, c) then (b, a, c) else if LessEq(b, c) then (b, c, a) else (c, b, a)
  }

  /** The sorted triple is in order and holds the same three names. */
  lemma Sort3Sorted(a: string, b: string, c: string)
    ensures var t := Sort3(a, b, c);
            LessEq(t.0, t.1) && LessEq(t.1, t.2) && multiset{t.0, t.1, t.2} == multiset{a, b, c}
  {
    Order3(a, b, c);
  }

  /** The sorted triple does not depend on the order the three names were found in. */
  lemma Sort3OrderFree(a: string, b: string, c: string)
    ensures Sort3(a, b, c) == Sort3(b, a, c) == Sort3(a, c, b) == Sort3(c, b, a)
  {
    Order3(a, b, c);
  }

  // ---------------------------------------------------------------------------------------
  // parse

  /** `line.split('-')` as exactly two names, or None where parse panics. */
  function LinkOf(line: string): (r: Option<(string, string)>)
    ensures r.Some? ==> '-' !in r.value.0 && '-' !in r.value.1 && r.value.0 + "-" + r.value.1 == line
    ensures r.None? ==> |Split(line, '-')| != 2
  {
    var parts := Split(line, '-');
    if |parts| == 2 then
      SplitJoin(line, '-');
      assert Join(parts, '-') == parts[0] + ['-'] + Join(parts[1..], '-');
      Some((parts[0], parts[1]))
    else None
  }

  /** One entry update of parse: `b` joins `a`'s set, which is created when vacant. */
  function Insert(lan: Lan, a: string, b: string): Lan
  {
    lan[a := (if a in lan then lan[a] else {}) + {b}]
  }

  /** The network after the first `n` lines, or None if one of them is malformed. */
  function Links(lines: seq<string>, n: nat): Option<Lan>
    requires n <= |lines|
  {
    if n == 0 then Some(map[])
    else match Links(lines, n - 1)
      case None => None
      case Some(lan) =>
        match LinkOf(lines[n - 1])
        case None => None
        case Some((a, b)) => Some(Insert(Insert(lan, a, b), b, a))
  }

  /** The two `entry` updates of parse for one link: each end gains the other as a neighbour. */
  method Connect(lan: Lan, a: string, b: string) returns (r: Lan)
    ensures r == Insert(Insert(lan, a, b), b, a)
  {
    r := lan;
    if a in r {
      r := r[a := r[a] + {b}];
    } else {
      assert {} + {b} == {b};
      r := r[a := {b}];
    }
    assert r == Insert(lan, a, b);
    ghost var middle := r;
    if b in r {
      r := r[b := r[b] + {a}];
    } else {
      assert {} + {a} == {a};
      r := r[b := {a}];
    }
    assert r == Insert(middle, b, a);
  }

  /** parse: the loop over the lines. */
  method Parse(lines: seq<string>) returns (r: Option<Lan>)
    ensures r == Links(lines, |lines|)
  {
    var lan: Lan := map[];
    for i := 0 to |lines|
      invariant Links(lines, i) == Some(lan)
    {
      var link := LinkOf(lines[i]);
      if link.None? {
        LinksNone(lines, i + 1, |lines|);
        return None;
      }
      var (a, b) := link.value;
      lan := Connect(lan, a, b);
      assert Links(lines, i + 1) == Some(lan);
    }
    r := Some(lan);
  }

  /** Once a line is malformed, parse panics. */
  lemma {:induction false} LinksNone(lines: seq<string>, a: nat, b: nat)
    requires a <= b <= |lines| && Links(lines, a).None?
    ensures Links(lines, b).None?
    decreases b - a
  {
    if a < b {
      LinksNone(lines, a + 1, b);
    }
  }

  /** Parse succeeds exactly when every line is two names joined by '-'. */
  lemma {:induction false} LinksSome(lines: seq<string>, n: nat)
    requires n <= |lines|
    ensures Links(lines, n).Some? <==> forall i :: 0 <= i < n ==> LinkOf(lines[i]).Some?
  {
    if n > 0 {
      LinksSome(lines, n - 1);
    }
  }

  /** Line `i` links `a` and `b`, in either order. */
  predicate LinkedBy(lines: seq<string>, i: int, a: string, b: string)
    requires 0 <= i < |lines|
  {
    LinkOf(lines[i]) == Some((a, b)) || LinkOf(lines[i]) == Some((b, a))
  }

  /** After parse, `b` is in `a`'s set exactly when some line links the two, and every set is
      non-empty. */
  lemma {:induction false} LinksMeaning(lines: seq<string>, n: nat, a: string, b: string)
    requires n <= |lines| && Links(lines, n).Some?
    ensures var lan := Links(lines, n).value;
            (a in lan && b in lan[a]) <==> exists i :: 0 <= i < n && LinkedBy(lines, i, a, b)
    ensures var lan := Links(lines, n).value; a in lan ==> lan[a] != {}
  {
    if n > 0 {
      LinksMeaning(lines, n - 1, a, b);
      var prev := Links(lines, n - 1).value;
      var (p, q) := LinkOf(lines[n - 1]).value;
      InsertMember(prev, p, q, a, b);
      InsertMember(Insert(prev, p, q), q, p, a, b);
      var lan := Links(lines, n).value;
      assert lan == Insert(Insert(prev, p, q), q, p);
      assert LinkedBy(lines, n - 1, a, b) <==> (a, b) == (p, q) || (a, b) == (q, p);
      if exists i :: 0 <= i < n - 1 && LinkedBy(lines, i, a, b) {
        var i :| 0 <= i < n - 1 && LinkedBy(lines, i, a, b);
        assert 0 <= i < n && LinkedBy(lines, i, a, b);
      }
      if exists i :: 0 <= i < n && LinkedBy(lines, i, a, b) {
        var i :| 0 <= i < n && LinkedBy(lines, i, a, b);
        if i < n - 1 {
          assert exists j :: 0 <= j < n - 1 && LinkedBy(lines, j, a, b);
        }
      }
    }
  }

  /** What one entry update adds. */
  lemma InsertMember(lan: Lan, p: string, q: string, a: string, b: string)
    ensures (a in Insert(lan, p, q) && b in Insert(lan, p, q)[a]) <==> (a in lan && b in lan[a]) || (a, b) == (p, q)
  {
  }

  /** Links run both ways after parse. */
  predicate Symmetric(lan: Lan)
  {
    forall a, b :: a in lan && b in lan[a] ==> b in lan && a in lan[b]
  }

  lemma ParseSymmetric(lines: seq<string>)
    requires Links(lines, |lines|).Some?
    ensures Symmetric(Links(lines, |lines|).value)
  {
    var lan := Links(lines, |lines|).value;
    forall a, b | a in lan && b in lan[a]
      ensures b in lan && a in lan[b]
    {
      LinksMeaning(lines, |lines|, a, b);
      var i :| 0 <= i < |lines| && LinkedBy(lines, i, a, b);
      assert LinkedBy(lines, i, b, a);
      LinksMeaning(lines, |lines|, b, a);
    }
  }

  // ---------------------------------------------------------------------------------------
  // part1

  predicate StartsWithT(name: string)
  {
    |name| > 0 && name[0] == 't'
  }

  /** The triangles part 1 records from key `k` and its linked computer `a`. */
  ghost function PairTriangles(lan: Lan, k: string, a: string): set<(string, string, string)>
    requires k in lan
  {
    set b | b in lan[k] && a != b && b in lan && a in lan[b] :: Sort3(k, a, b)
  }

  /** The triangles part 1 records from key `k`. */
  ghost function KeyTriangles(lan: Lan, k: string): set<(string, string, string)>
    requires k in lan
  {
    set a, t | a in lan[k] && t in PairTriangles(lan, k, a) :: t
  }

  /** The triangles part 1 records from the keys in `keys` starting with 't'. */
  ghost function Triangles(lan: Lan, keys: set<string>): set<(string, string, string)>
  {
    set k, t | k in keys && k in lan && StartsWithT(k) && t in KeyTriangles(lan, k) :: t
  }

  /** What part 1 counts: the sorted triples of a 't' computer and two different computers
      linked to it and to each other; each triple once, whichever member was the key. */
  lemma TrianglesMeaning(lan: Lan, t: (string, string, string))
    ensures t in Triangles(lan, lan.Keys) <==>
      exists k, a, b :: k in lan && StartsWithT(k) && a in lan[k] && b in lan[k] && a != b && b in lan && a in lan[b]
                        && t == Sort3(k, a, b)
    ensures t in Triangles(lan, lan.Keys) ==> LessEq(t.0, t.1) && LessEq(t.1, t.2)
  {
    if t in Triangles(lan, lan.Keys) {
      var k, t' :| k in lan && StartsWithT(k) && t' in KeyTriangles(lan, k) && t == t';
      var a, t'' :| a in lan[k] && t'' in PairTriangles(lan, k, a) && t == t'';
      var b :| b in lan[k] && a != b && b in lan && a in lan[b] && t == Sort3(k, a, b);
      Sort3Sorted(k, a, b);
    }
    if exists k, a, b :: k in lan && StartsWithT(k) && a in lan[k] && b in lan[k] && a != b && b in lan && a in lan[b]
                         && t == Sort3(k, a, b) {
      var k, a, b :| k in lan && StartsWithT(k) && a in lan[k] && b in lan[k] && a != b && b in lan && a in lan[b]
                     && t == Sort3(k, a, b);
      assert t in PairTriangles(lan, k, a);
      assert t in KeyTriangles(lan, k);
    }
  }

  /** A triangle found from `k` through `a` then `b` is also found through `b` then `a`. */
  lemma TriangleBothWays(lan: Lan, k: string, a: string, b: string)
    requires Symmetric(lan) && k in lan && a in lan[k] && b in lan[k] && a != b && b in lan && a in lan[b]
    ensures Sort3(k, a, b) in PairTriangles(lan, k, a) && Sort3(k, b, a) in PairTriangles(lan, k, b)
    ensures Sort3(k, a, b) == Sort3(k, b, a)
  {
    Sort3OrderFree(k, a, b);
    assert a in lan && b in lan[a];
  }

  /** The innermost loop of part1: the computers `b` linked to `k` for a fixed `a`. */
  method AddPairTriangles(lan: Lan, k: string, a: string, triangles: set<(string, string, string)>)
    returns (triangles': set<(string, string, string)>)
    requires k in lan && forall x :: x in lan[k] ==> x in lan
    ensures triangles' == triangles + PairTriangles(lan, k, a)
  {
    triangles' := triangles;
    var rest := lan[k];
    while rest != {}
      invariant rest <= lan[k]
      invariant triangles' == triangles + set b | b in lan[k] - rest && a != b && b in lan && a in lan[b] :: Sort3(k, a, b)
      decreases |rest|
    {
      var b :| b in rest;
      if a != b {
        if a in lan[b] {
          var sorted := Sort3(k, a, b);
          triangles' := triangles' + {sorted};
        }
      }
      rest := rest - {b};
    }
  }

  /** The middle loop of part1: every `a` linked to `k`. */
  method AddKeyTriangles(lan: Lan, k: string, triangles: set<(string, string, string)>)
    returns (triangles': set<(string, string, string)>)
    requires k in lan && forall x :: x in lan[k] ==> x in lan
    ensures triangles' == triangles + KeyTriangles(lan, k)
  {
    triangles' := triangles;
    var rest := lan[k];
    while rest != {}
      invariant rest <= lan[k]
      invariant triangles' == triangles + set a, t | a in lan[k] - rest && t in PairTriangles(lan, k, a) :: t
      decreases |rest|
    {
      var a :| a in rest;
      triangles' := AddPairTriangles(lan, k, a, triangles');
      rest := rest - {a};
    }
  }

  /** part1: the number of distinct triangles over the keys starting with 't', in any key
      order.  Indexing `lan[b]` needs every linked computer to be a key, as parse ensures. */
  method Part1(lan: Lan) returns (count: nat)
    requires forall k, x :: k in lan && x in lan[k] ==> x in lan
    ensures count == |Triangles(lan, lan.Keys)|
  {
    var triangles: set<(string, string, string)> := {};
    var rest := lan.Keys;
    while rest != {}
      invariant rest <= lan.Keys
      invariant triangles == Triangles(lan, lan.Keys - rest)
      decreases |rest|
    {
      var k :| k in rest;
      if StartsWithT(k) {
        triangles := AddKeyTriangles(lan, k, triangles);
      }
      rest := rest - {k};
    }
    assert lan.Keys - rest == lan.Keys;
    count := |triangles|;
  }

  // ---------------------------------------------------------------------------------------
  // part2

  /** Every two members are linked, at least from one side's set (both, in a symmetric
      network). */
  predicate Linked(lan: Lan, group: set<string>)
  {
    forall x, y :: x in group && y in group && x != y ==> (x in lan && y in lan[x]) || (y in lan && x in lan[y])
  }

  /** In a symmetric network a linked group is a clique. */
  lemma LinkedIsClique(lan: Lan, group: set<string>)
    requires Symmetric(lan) && Linked(lan, group)
    ensures forall x, y :: x in group && y in group && x != y ==> x in lan && y in lan[x]
  {
  }

  /** `order` lists every member of `s` once: an iteration order of the hash set. */
  ghost predicate Enumerates(order: seq<string>, s: set<string>)
  {
    |order| == |s| && forall p :: p in order <==> p in s
  }

  /** One step of part2's inner loop: neighbour `p` joins when it is not `k` itself, has an
      entry, is not in the group yet and has every member in its own set. */
  function GreedyStep(lan: Lan, k: string, group: set<string>, p: string): set<string>
  {
    if k != p && p in lan && p !in group && group <= lan[p] then group + {p} else group
  }

  /** The greedy group of `k` after visiting its neighbours in the order given. */
  function GreedyFold(lan: Lan, k: string, order: seq<string>): set<string>
  {
    if order == [] then {k}
    else GreedyStep(lan, k, GreedyFold(lan, k, order[..|order| - 1]), order[|order| - 1])
  }

  /** The group holds `k` and only members of `order`, and every two members are linked. */
  lemma {:induction false} GreedyFoldSound(lan: Lan, k: string, order: seq<string>)
    ensures k in GreedyFold(lan, k, order)
    ensures forall x :: x in GreedyFold(lan, k, order) ==> x == k || x in order
    ensures Linked(lan, GreedyFold(lan, k, order))
  {
    if order != [] {
      var before := order[..|order| - 1];
      GreedyFoldSound(lan, k, before);
      var g := GreedyFold(lan, k, before);
      var p := order[|order| - 1];
      if k != p && p in lan && p !in g && g <= lan[p] {
        forall x, y | x in g + {p} && y in g + {p} && x != y
          ensures (x in lan && y in lan[x]) || (y in lan && x in lan[y])
        {
          if x == p {
            assert y in lan[p];
          } else if y == p {
            assert x in lan[p];
          }
        }
      }
    }
  }

  /** The group cannot be extended: a visited neighbour left out does not have every member in
      its set. */
  lemma {:induction false} GreedyFoldMaximal(lan: Lan, k: string, order: seq<string>)
    ensures forall q :: q in order && q != k && q in lan && q !in GreedyFold(lan, k, order) ==>
              !(GreedyFold(lan, k, order) <= lan[q])
  {
    if order != [] {
      var before := order[..|order| - 1];
      GreedyFoldMaximal(lan, k, before);
      var g := GreedyFold(lan, k, before);
      var g' := GreedyFold(lan, k, order);
      assert g <= g';
      forall q | q in order && q != k && q in lan && q !in g'
        ensures !(g' <= lan[q])
      {
        if q in before {
          assert !(g <= lan[q]);
          var w :| w in g && w !in lan[q];
          assert w in g';
        }
      }
    }
  }

  /** In a symmetric network, the greedy group over all of `k`'s neighbours is a maximal clique:
      no computer outside it is linked to every member. */
  lemma GreedyMaximalClique(lan: Lan, k: string, order: seq<string>)
    requires Symmetric(lan) && k in lan && Enumerates(order, lan[k])
    ensures forall x, y :: x in GreedyFold(lan, k, order) && y in GreedyFold(lan, k, order) && x != y ==>
              x in lan && y in lan[x]
    ensures forall x :: x in lan && x !in GreedyFold(lan, k, order) ==> !(GreedyFold(lan, k, order) <= lan[x])
  {
    var g := GreedyFold(lan, k, order);
    GreedyFoldSound(lan, k, order);
    GreedyFoldMaximal(lan, k, order);
    LinkedIsClique(lan, g);
    forall x | x in lan && x !in g
      ensures !(g <= lan[x])
    {
      if k in lan[x] {
        assert x in lan[k];
        assert x in order;
      } else {
        assert k in g;
      }
    }
  }

  /** The greedy search of part2 from key `k`, over its neighbours in the set's iteration order
      (`order`, chosen by the loop). */
  method Greedy(lan: Lan, k: string) returns (group: set<string>, ghost order: seq<string>)
    requires k in lan
    ensures Enumerates(order, lan[k]) && group == GreedyFold(lan, k, order)
  {
    group := {k};
    order := [];
    var rest := lan[k];
    while rest != {}
      invariant rest <= lan[k] && |order| + |rest| == |lan[k]|
      invariant forall p :: p in order <==> p in lan[k] - rest
      invariant group == GreedyFold(lan, k, order)
      decreases |rest|
    {
      var p :| p in rest;
      if k != p {
        if p in lan {
          if p !in group && group <= lan[p] {
            group := group + {p};
          }
        }
      }
      order := order + [p];
      rest := rest - {p};
    }
  }

  /** Inserting a name into a strictly sorted list. */
  function InsertSorted(names: seq<string>, x: string): (r: seq<string>)
    ensures |r| == |names| + 1 && multiset(r) == multiset(names) + multiset{x}
  {
    if names == [] || Less(x, names[0]) then [x] + names
    else
      assert names == [names[0]] + names[1..];
      [names[0]] + InsertSorted(names[1..], x)
  }

  predicate StrictlySorted(names: seq<string>)
  {
    forall i, j :: 0 <= i < j < |names| ==> Less(names[i], names[j])
  }

  lemma {:induction false} InsertSortedSorted(names: seq<string>, x: string)
    requires StrictlySorted(names) && x !in names
    ensures StrictlySorted(InsertSorted(names, x))
  {
    if names == [] || Less(x, names[0]) {
      forall j | 0 <= j < |names|
        ensures Less(x, names[j])
      {
        if j > 0 {
          LessTransitive(x, names[0], names[j]);
        }
      }
    } else {
      assert names == [names[0]] + names[1..];
      InsertSortedSorted(names[1..], x);
      LessTotal(x, names[0]);
      var r := InsertSorted(names, x);
      assert r == [names[0]] + InsertSorted(names[1..], x);
      forall j | 0 < j < |r|
        ensures Less(names[0], r[j])
      {
        assert r[j] in multiset(names[1..]) + multiset{x};
        if r[j] != x {
          var k :| 0 <= k < |names[1..]| && names[1..][k] == r[j];
          assert names[k + 1] == r[j];
        }
      }
    }
  }

  /** `ret.sort()` on the group's names: strictly sorted, exactly the group. */
  method SortNames(group: set<string>) returns (names: seq<string>)
    ensures StrictlySorted(names) && |names| == |group| && forall x :: x in names <==> x in group
  {
    names := [];
    var rest := group;
    while rest != {}
      invariant rest <= group && StrictlySorted(names) && |names| == |group - rest|
      invariant forall x :: x in names <==> x in group - rest
      decreases |rest|
    {
      var x :| x in rest;
      InsertSortedSorted(names, x);
      var next := InsertSorted(names, x);
      assert forall y :: y in next <==> y in multiset(next);
      assert forall y :: y in names <==> y in multiset(names);
      assert group - (rest - {x}) == (group - rest) + {x};
      names := next;
      rest := rest - {x};
    }
  }

  /** The index of the first group of maximal size: what `groups.sort_by` (a stable sort by
      descending size) puts first. */
  method FirstLargest(groups: seq<set<string>>) returns (best: nat)
    requires |groups| > 0
    ensures best < |groups| && forall j :: 0 <= j < |groups| ==> |groups[j]| <= |groups[best]|
    ensures forall j :: 0 <= j < best ==> |groups[j]| < |groups[best]|
  {
    best := 0;
    for i := 1 to |groups|
      invariant best < i && forall j :: 0 <= j < i ==> |groups[j]| <= |groups[best]|
      invariant forall j :: 0 <= j < best ==> |groups[j]| < |groups[best]|
    {
      if |groups[i]| > |groups[best]| {
        best := i;
      }
    }
  }

  /** `groups[i]` is the greedy group of `keys[i]`, its neighbours visited in `orders[i]`, and the
      keys list the computers once each. */
  ghost predicate GreedyGroups(lan: Lan, groups: seq<set<string>>, keys: seq<string>, orders: seq<seq<string>>)
  {
    && Enumerates(keys, lan.Keys) && |groups| == |keys| && |orders| == |keys|
    && forall i :: 0 <= i < |keys| ==> Enumerates(orders[i], lan[keys[i]]) && groups[i] == GreedyFold(lan, keys[i], orders[i])
  }

  /** The password chosen among the groups: the names of the first largest group, strictly
      sorted and joined by commas. */
  ghost predicate Password(groups: seq<set<string>>, pw: string)
  {
    exists i, names ::
      && 0 <= i < |groups| && (forall j :: 0 <= j < |groups| ==> |groups[j]| <= |groups[i]|)
      && (forall j :: 0 <= j < i ==> |groups[j]| < |groups[i]|)
      && StrictlySorted(names) && (forall x :: x in names <==> x in groups[i]) && pw == Join(names, ',')
  }

  /** part2: a greedy group per key, in the map's iteration order; the first largest one's
      names, sorted and joined by commas.  No key at all is the source's "No groups found"
      panic. */
  method Part2(lan: Lan) returns (r: Option<string>, ghost groups: seq<set<string>>,
                                  ghost keys: seq<string>, ghost orders: seq<seq<string>>)
    ensures r.Some? <==> |lan| > 0
    ensures GreedyGroups(lan, groups, keys, orders)
    ensures r.Some? ==> Password(groups, r.value)
  {
    var all;
    all, keys, orders := AllGroups(lan);
    groups := all;
    if |all| == 0 {
      assert |lan.Keys| == 0;
      return None, groups, keys, orders;
    }
    assert keys[0] in lan.Keys;
    var best := FirstLargest(all);
    var names := SortNames(all[best]);
    r := Some(Join(names, ','));
  }

  /** The loop of part2 over the keys: one greedy group per key, in the order visited. */
  method AllGroups(lan: Lan) returns (groups: seq<set<string>>, ghost keys: seq<string>, ghost orders: seq<seq<string>>)
    ensures GreedyGroups(lan, groups, keys, orders)
  {
    groups, keys, orders := [], [], [];
    var rest := lan.Keys;
    while rest != {}
      invariant rest <= lan.Keys && |keys| + |rest| == |lan.Keys|
      invariant forall p :: p in keys <==> p in lan.Keys - rest
      invariant |groups| == |keys| && |orders| == |keys|
      invariant forall i :: 0 <= i < |keys| ==>
                  keys[i] in lan && Enumerates(orders[i], lan[keys[i]]) && groups[i] == GreedyFold(lan, keys[i], orders[i])
      decreases |rest|
    {
      var k :| k in rest;
      var group, order := Greedy(lan, k);
      groups, keys, orders := groups + [group], keys + [k], orders + [order];
      rest := rest - {k};
    }
  }

  /** main: parse, then both parts on the parsed network. */
  method Solve(lines: seq<string>) returns (r: Option<(nat, Option<string>)>, ghost groups: seq<set<string>>,
                                            ghost keys: seq<string>, ghost orders: seq<seq<string>>)
    ensures r.Some? <==> Links(lines, |lines|).Some?
    ensures r.Some? <==> forall i :: 0 <= i < |lines| ==> LinkOf(lines[i]).Some?
    ensures r.Some? ==> var lan := Links(lines, |lines|).value;
                        && Symmetric(lan) && r.value.0 == |Triangles(lan, lan.Keys)| && (r.value.1.Some? <==> |lan| > 0)
                        && GreedyGroups(lan, groups, keys, orders) && (r.value.1.Some? ==> Password(groups, r.value.1.value))
  {
    LinksSome(lines, |lines|);
    var parsed := Parse(lines);
    if parsed.None? {
      return None, [], [], [];
    }
    var lan := parsed.value;
    ParseSymmetric(lines);
    var count := Part1(lan);
    var password;
    password, groups, keys, orders := Part2(lan);
    r := Some((count, password));
  }
}
