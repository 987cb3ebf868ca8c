/** Splitting a flattened tree into fragments that can be extracted independently. */
module Packing {
  import opened Basics
  import opened Layers

  const FRAME_TARGET: nat := 0x80_0000

  // ---- Path order ----

  /** Strings compare by their first different character. */
  predicate Before(a: Name, b: Name) {
    b != "" && (a == "" || a[0] < b[0] || (a[0] == b[0] && Before(a[1..], b[1..])))
  }

  lemma {:induction false} BeforeIsTotal(a: Name, b: Name)
    ensures a == b || Before(a, b) || Before(b, a)
  {
    if a != "" && b != "" && a[0] == b[0] {
      BeforeIsTotal(a[1..], b[1..]);
      assert a == [a[0]] + a[1..] && b == [b[0]] + b[1..];
    }
  }

  lemma {:induction false} BeforeIsTransitive(a: Name, b: Name, c: Name)
    requires Before(a, b) && Before(b, c)
    ensures Before(a, c)
  {
    if a != "" && b != "" && a[0] == b[0] == c[0] {
      BeforeIsTransitive(a[1..], b[1..], c[1..]);
    }
  }

  /** Path order: a path comes before its extensions, else the first difference decides. */
  lemma {:induction false} BeforeMeans(p: Name, c: char, d: char, s: Name, t: Name)
    ensures Before(p, p + [c] + s)
    ensures c < d ==> Before(p + [c] + s, p + [d] + t) && !Before(p + [d] + t, p + [c] + s)
  {
    var a, b := p + [c] + s, p + [d] + t;
    if p != "" {
      BeforeMeans(p[1..], c, d, s, t);
      assert a[1..] == p[1..] + [c] + s && b[1..] == p[1..] + [d] + t && a[0] == b[0] == p[0];
    }
  }

  ghost predicate Sorted(names: seq<Name>) {
    forall i, j :: 0 <= i < j < |names| ==> Before(names[i], names[j])
  }

  /** The names in path order, by insertion. */
  method SortNames(keys: set<Name>) returns (names: seq<Name>)
    ensures Sorted(names)
    ensures forall p :: p in names <==> p in keys
  {
    names := [];
    var left := keys;
    while left != {}
      invariant left <= keys && Sorted(names)
      invariant forall p :: p in names <==> p in keys && p !in left
      decreases left
    {
      var name :| name in left;
      left := left - {name};
      names := Insert(names, name);
    }
  }

  method Insert(names: seq<Name>, name: Name) returns (r: seq<Name>)
    requires Sorted(names) && name !in names
    ensures Sorted(r) && forall p :: p in r <==> p in names || p == name
  {
    hide Before;
    var i := 0;
    while i < |names| && Before(names[i], name)
      invariant i <= |names| && forall k :: 0 <= k < i ==> Before(names[k], name)
    {
      i := i + 1;
    }
    r := names[..i] + [name] + names[i..];
    forall k | i <= k < |names|
      ensures Before(name, names[k])
    {
      BeforeIsTotal(names[i], name);
      if i < k {
        BeforeIsTransitive(name, names[i], names[k]);
      }
    }
  }

  // ---- Fragments ----

  function Select(entries: Entries, names: seq<Name>, files: bool): seq<Name>
    requires forall p :: p in names ==> p in entries
  {
    if names == [] then []
    else
      var rest, last := Select(entries, names[..|names| - 1], files), names[|names| - 1];
      if entries[last].File? == files then rest + [last] else rest
  }

  function Size(entries: Entries, group: seq<Name>): nat
    requires forall p :: p in group ==> p in entries && entries[p].File?
  {
    if group == [] then 0 else Size(entries, group[..|group| - 1]) + |entries[group[|group| - 1]].content|
  }

  function Flatten(groups: seq<seq<Name>>): seq<Name> {
    if groups == [] then [] else Flatten(groups[..|groups| - 1]) + groups[|groups| - 1]
  }

  ghost predicate Files(entries: Entries, group: seq<Name>) { forall p :: p in group ==> p in entries && entries[p].File? }

  /** Within the target, or a single file too big for it. */
  ghost predicate Fits(entries: Entries, group: seq<Name>) {
    Files(entries, group) && group != [] && (Size(entries, group) <= FRAME_TARGET || |group| == 1)
  }

  /** The next file would not have fitted. */
  ghost predicate Full(entries: Entries, group: seq<Name>, next: seq<Name>) {
    Files(entries, group) && Files(entries, next) && next != [] && Size(entries, group) + Size(entries, next[..1]) > FRAME_TARGET
  }

  ghost predicate Packed(entries: Entries, groups: seq<seq<Name>>) {
    (forall g :: 0 <= g < |groups| ==> Fits(entries, groups[g])) &&
    (forall g :: 0 <= g < |groups| - 1 ==> Full(entries, groups[g], groups[g + 1]))
  }

  lemma SelectLast(entries: Entries, names: seq<Name>)
    requires names != [] && forall p :: p in names ==> p in entries
    ensures
      var rest, last := names[..|names| - 1], names[|names| - 1];
      var ours := entries[last].File?;
      Select(entries, names, ours) == Select(entries, rest, ours) + [last] && Select(entries, names, !ours) == Select(entries, rest, !ours)
  {
  }

  /** Selecting keeps just those of the kind, in the order they were in. */
  lemma {:induction false} SelectIsFilter(entries: Entries, names: seq<Name>, files: bool)
    requires forall p :: p in names ==> p in entries
    ensures forall p :: p in Select(entries, names, files) <==> p in names && entries[p].File? == files
    ensures Sorted(names) ==> Sorted(Select(entries, names, files))
  {
    hide Before;
    if names != [] {
      var rest, last := names[..|names| - 1], names[|names| - 1];
      SelectIsFilter(entries, rest, files);
      assert names == rest + [last];
      var kept := Select(entries, rest, files);
      forall i | 0 <= i < |kept| && Sorted(names)
        ensures Before(kept[i], last)
      {
        assert kept[i] in rest;
        var k :| 0 <= k < |rest| && rest[k] == kept[i];
        assert Before(names[k], names[|names| - 1]);
      }
    }
  }

  function Count(names: seq<Name>, p: Name): nat { multiset(names)[p] }

  lemma CountSnoc(names: seq<Name>, last: Name, p: Name)
    ensures Count(names + [last], p) == Count(names, p) + if p == last then 1 else 0
  {
  }

  lemma {:induction false} SelectCounts(entries: Entries, names: seq<Name>, p: Name)
    requires forall p :: p in names ==> p in entries
    ensures Count(Select(entries, names, false), p) + Count(Select(entries, names, true), p) == Count(names, p)
  {
    if names != [] {
      var rest, last := names[..|names| - 1], names[|names| - 1];
      SelectCounts(entries, rest, p);
      SelectLast(entries, names);
      hide Select, Count;
      assert names == rest + [last];
      CountSnoc(rest, last, p);
      CountSnoc(Select(entries, rest, entries[last].File?), last, p);
    }
  }

  lemma SelectPartitions(entries: Entries, names: seq<Name>)
    requires forall p :: p in names ==> p in entries
    ensures multiset(Select(entries, names, false)) + multiset(Select(entries, names, true)) == multiset(names)
  {
    hide Select;
    var a, b, all := multiset(Select(entries, names, false)), multiset(Select(entries, names, true)), multiset(names);
    forall p
      ensures (a + b)[p] == all[p]
    {
      SelectCounts(entries, names, p);
    }
  }

  lemma FlattenSnoc(groups: seq<seq<Name>>, group: seq<Name>)
    ensures Flatten(groups + [group]) == Flatten(groups) + group
  {
    assert (groups + [group])[..|groups|] == groups;
  }

  lemma {:induction false} FlattenConcat(a: seq<seq<Name>>, b: seq<seq<Name>>)
    ensures Flatten(a + b) == Flatten(a) + Flatten(b)
  {
    if b == [] {
      assert a + b == a;
    } else {
      var n := |b| - 1;
      FlattenConcat(a, b[..n]);
      assert (a + b)[..|a + b| - 1] == a + b[..n];
    }
  }

  lemma SizeSnoc(entries: Entries, group: seq<Name>, p: Name)
    requires Files(entries, group + [p]) && Files(entries, group)
    ensures Size(entries, group + [p]) == Size(entries, group) + |entries[p].content|
  {
    assert (group + [p])[..|group|] == group && (group + [p])[|group|] == p;
  }

  lemma OneFile(entries: Entries, p: Name)
    requires Files(entries, [p])
    ensures Size(entries, [p]) == |entries[p].content|
  {
    SizeSnoc(entries, [], p);
    assert [] + [p] == [p];
  }

  /** Groups closed so far, and the one being filled. */
  ghost predicate Filling(entries: Entries, groups: seq<seq<Name>>, current: seq<Name>, size: nat) {
    if current == [] then groups == [] && size == 0
    else Packed(entries, groups + [current]) && Files(entries, current) && size == Size(entries, current)
  }

  lemma CurrentIsFiles(entries: Entries, groups: seq<seq<Name>>, current: seq<Name>, size: nat)
    requires Filling(entries, groups, current, size)
    ensures Files(entries, current) && size == Size(entries, current)
  {
    if current != [] {
      assert (groups + [current])[|groups|] == current;
    }
  }

  /** Another file fits into the current group. */
  lemma Extend(entries: Entries, groups: seq<seq<Name>>, current: seq<Name>, size: nat, p: Name)
    requires Filling(entries, groups, current, size) && p in entries && entries[p].File?
    requires current == [] || size + |entries[p].content| <= FRAME_TARGET
    ensures Filling(entries, groups, current + [p], size + |entries[p].content|)
  {
    hide Size;
    CurrentIsFiles(entries, groups, current, size);
    var was, now := groups + [current], groups + [current + [p]];
    SizeSnoc(entries, current, p);
    assert Fits(entries, current + [p]);
    forall g | 0 <= g < |now|
      ensures Fits(entries, now[g])
    {
      assert g < |groups| ==> now[g] == was[g];
    }
    forall g | 0 <= g < |now| - 1
      ensures Full(entries, now[g], now[g + 1])
    {
      assert Full(entries, was[g], was[g + 1]);
      assert now[g] == was[g] && now[g + 1][..1] == was[g + 1][..1];
    }
  }

  /** Close the current group, and start one with a file that did not fit. */
  lemma Close(entries: Entries, groups: seq<seq<Name>>, current: seq<Name>, size: nat, p: Name)
    requires Filling(entries, groups, current, size) && p in entries && entries[p].File?
    requires current != [] && size + |entries[p].content| > FRAME_TARGET
    ensures Filling(entries, groups + [current], [p], |entries[p].content|)
  {
    hide Size;
    CurrentIsFiles(entries, groups, current, size);
    OneFile(entries, p);
    var was, now := groups + [current], groups + [current] + [[p]];
    assert [p][..1] == [p];
    forall g | 0 <= g < |now|
      ensures Fits(entries, now[g])
    {
      assert g < |was| ==> now[g] == was[g];
    }
    forall g | 0 <= g < |now| - 1
      ensures Full(entries, now[g], now[g + 1])
    {
      assert now[g] == was[g];
      assert g < |was| - 1 ==> Full(entries, was[g], was[g + 1]) && now[g + 1] == was[g + 1];
    }
  }

  /** Group the files, taking them in order and closing a group when the next file would not fit. */
  method GroupFiles(entries: Entries, ordered: seq<Name>) returns (groups: seq<seq<Name>>)
    requires forall p :: p in ordered ==> p in entries
    ensures Flatten(groups) == Select(entries, ordered, true) && Packed(entries, groups)
  {
    hide Packed, Filling, Flatten, Size;
    var current, size: nat := [], 0;
    groups := [];
    StartEmpty(entries);
    for i := 0 to |ordered|
      invariant Filling(entries, groups, current, size)
      invariant Flatten(groups) + current == Select(entries, ordered[..i], true)
    {
      var p := ordered[i];
      assert ordered[..i + 1][..i] == ordered[..i];
      if entries[p].File? {
        var content := entries[p].content;
        if current != [] && size + |content| > FRAME_TARGET {
          Close(entries, groups, current, size, p);
          FlattenSnoc(groups, current);
          groups := groups + [current];
          current, size := [], 0;
          assert [] + [p] == [p];
        } else {
          Extend(entries, groups, current, size, p);
        }
        current := current + [p];
        size := size + |content|;
      }
    }
    assert ordered[..|ordered|] == ordered;
    FinishFilling(entries, groups, current, size);
    if current != [] {
      FlattenSnoc(groups, current);
      groups := groups + [current];
    }
  }

  lemma StartEmpty(entries: Entries)
    ensures Filling(entries, [], [], 0) && Flatten([]) == []
  {
  }

  lemma FinishFilling(entries: Entries, groups: seq<seq<Name>>, current: seq<Name>, size: nat)
    requires Filling(entries, groups, current, size)
    ensures Packed(entries, if current == [] then groups else groups + [current])
  {
  }

  /** Pack a tree: what is not a file comes first, then the groups of files. */
  method PackFragments(entries: Entries) returns (ordered: seq<Name>, fragments: seq<seq<Name>>)
    ensures Sorted(ordered) && forall p :: p in ordered <==> p in entries
    ensures |fragments| >= 1 && fragments[0] == Select(entries, ordered, false)
    ensures Flatten(fragments[1..]) == Select(entries, ordered, true) && Packed(entries, fragments[1..])
    ensures multiset(Flatten(fragments)) == multiset(ordered)
  {
    hide Packed, Flatten;
    ordered := SortNames(entries.Keys);
    var groups := GroupFiles(entries, ordered);
    var others := Select(entries, ordered, false);
    fragments := [others] + groups;
    assert fragments[1..] == groups;
    FlattenConcat([others], groups);
    FlattenSnoc([], others);
    StartEmpty(entries);
    assert [] + [others] == [others] && [] + others == others;
    SelectPartitions(entries, ordered);
  }

  /** Sorted names are all different, so each entry is in one fragment, once. */
  lemma EachOnce(ordered: seq<Name>, p: Name)
    requires Sorted(ordered)
    ensures multiset(ordered)[p] == if p in ordered then 1 else 0
  {
    if p in ordered {
      var i :| 0 <= i < |ordered| && ordered[i] == p;
      assert ordered == ordered[..i] + [p] + ordered[i + 1..];
      forall k | 0 <= k < |ordered| && k != i
        ensures ordered[k] != p
      {
        NotBeforeItself(p);
      }
    }
  }

  lemma {:induction false} NotBeforeItself(p: Name)
    ensures !Before(p, p)
  {
    if p != "" {
      NotBeforeItself(p[1..]);
    }
  }
}
