/**
 * Flattening the layers of a container image into one tree. Names are relative
 * paths with `/` between their parts, in the form `relative_path` gives them.
 * (OCI Image Format Specification, Image Layer Filesystem Changeset.)
 */
module Layers {
  import opened Basics

  type Name = string

  const WHITEOUT := ".wh."
  const OPAQUE := ".wh..wh..opq"

  datatype Kind =
    | Regular(content: seq<byte>)
    /** Links hold what they name once rewritten, or nothing when that is outside the tree. */
    | HardLink(target: Option<Name>)
    | SymLink(link: Option<string>)
    | Directory
    | Unsupported

  datatype Member = Member(name: Name, kind: Kind)

  /** What the flattened tree holds: hard links have become copies. */
  datatype Entry = File(content: seq<byte>) | Link(link: string) | Dir

  type Entries = map<Name, Entry>

  datatype Result<+T> = Ok(value: T) | Err

  // ---- Paths ----

  /** The index after the last slash. */
  function NameStart(p: Name): (i: nat)
    ensures i <= |p| && (i == 0 || p[i - 1] == '/') && forall k :: i <= k < |p| ==> p[k] != '/'
  {
    if p == "" then 0
    else if p[|p| - 1] == '/' then |p|
    else NameStart(p[..|p| - 1])
  }

  function Base(p: Name): Name { p[NameStart(p)..] }

  function Parent(p: Name): Name {
    var i := NameStart(p);
    if i == 0 then "." else p[..i - 1]
  }

  /** A path splits into its directory and its name in one way. */
  lemma JoinSplits(dir: Name, name: Name)
    requires forall k :: 0 <= k < |name| ==> name[k] != '/'
    ensures Base(dir + "/" + name) == name && Parent(dir + "/" + name) == dir
    ensures Base(name) == name && Parent(name) == "."
  {
    var p := dir + "/" + name;
    assert p[|dir|] == '/';
    assert forall k :: |dir| < k < |p| ==> p[k] == name[k - |dir| - 1];
    assert NameStart(p) == |dir| + 1;
  }

  /** `p` lies below `dir`. */
  predicate Under(p: Name, dir: Name) { dir + "/" <= p }

  predicate IsOpaque(m: Member) { Base(m.name) == OPAQUE }

  predicate IsMarker(m: Member) { WHITEOUT <= Base(m.name) }

  predicate IsWhiteout(m: Member) { IsMarker(m) && !IsOpaque(m) }

  /** What a whiteout names; there is no file called "" or ".". */
  function Victim(m: Member): (r: Result<Name>)
    requires IsMarker(m)
    ensures r.Ok? <==> Base(m.name) != WHITEOUT && Base(m.name) != WHITEOUT + "."
  {
    var name := Base(m.name)[|WHITEOUT|..];
    assert Base(m.name) == WHITEOUT + name;
    if name == "" || name == "." then Err else Ok(m.name[..NameStart(m.name)] + name)
  }

  /** `dir/.wh.name` names `dir/name`. */
  lemma WhiteoutNames(dir: Name, name: Name, kind: Kind)
    requires name != "" && name != "." && forall k :: 0 <= k < |name| ==> name[k] != '/'
    ensures
      var m := Member(dir + "/" + (WHITEOUT + name), kind);
      IsMarker(m) && Victim(m) == Ok(dir + "/" + name)
  {
    var m := Member(dir + "/" + (WHITEOUT + name), kind);
    JoinSplits(dir, WHITEOUT + name);
    assert m.name[..NameStart(m.name)] == dir + "/";
    hide Base, Parent;
    assert (WHITEOUT + name)[|WHITEOUT|..] == name;
  }

  // ---- What a layer does, entry by entry ----

  /** The marker takes this path of the lower layers away. */
  predicate Erases(m: Member, p: Name) {
    if IsOpaque(m) then Parent(m.name) == "." || Under(p, Parent(m.name))
    else IsMarker(m) && Victim(m).Ok? && (p == Victim(m).value || Under(p, Victim(m).value))
  }

  predicate Adds(m: Member) { m.name != "." && !IsMarker(m) }

  /** Adding `m` takes the place of what is at `p`, or of the directory it was in. */
  predicate Replaces(m: Member, p: Name) { Adds(m) && (m.name == p || (!m.kind.Directory? && Under(p, m.name))) }

  predicate Erased(members: seq<Member>, p: Name) { exists i :: 0 <= i < |members| && Erases(members[i], p) }

  predicate Replaced(members: seq<Member>, from: nat, p: Name) { exists j :: from <= j < |members| && Replaces(members[j], p) }

  predicate WellMarked(members: seq<Member>) {
    forall i :: 0 <= i < |members| && IsWhiteout(members[i]) ==> Victim(members[i]).Ok?
  }

  function AfterWhiteouts(entries: Entries, members: seq<Member>): Entries {
    map p | p in entries && !Erased(members, p) :: entries[p]
  }

  /** What a member becomes, among the entries so far. */
  function Make(entries: Entries, m: Member): Result<Entry> {
    match m.kind
    case Regular(content) => Ok(File(content))
    case HardLink(target) =>
      if target.Some? && target.value in entries && entries[target.value].File? then Ok(entries[target.value]) else Err
    case SymLink(link) => if link.Some? then Ok(Link(link.value)) else Err
    case Directory => Ok(Dir)
    case Unsupported => Err
  }

  function WithoutUnder(entries: Entries, dir: Name): Entries { map p | p in entries && !Under(p, dir) :: entries[p] }

  function AddOne(entries: Entries, m: Member): Result<Entries> {
    if !Adds(m) then Ok(entries)
    else
      match Make(entries, m)
      case Err => Err
      case Ok(e) => Ok((if e.Dir? then entries else WithoutUnder(entries, m.name))[m.name := e])
  }

  function AddAll(entries: Entries, members: seq<Member>): Result<Entries> {
    if members == [] then Ok(entries)
    else
      match AddAll(entries, members[..|members| - 1])
      case Err => Err
      case Ok(before) => AddOne(before, members[|members| - 1])
  }

  function Merge(entries: Entries, members: seq<Member>): Result<Entries> {
    if WellMarked(members) then AddAll(AfterWhiteouts(entries, members), members) else Err
  }

  // ---- What survives ----

  /** A lower path survives when no marker takes it away and the layer puts nothing in its place. */
  predicate Survives(entries: Entries, members: seq<Member>, p: Name) {
    p in entries && !Erased(members, p) && !Replaced(members, 0, p)
  }

  /** Member `i` is the last word on path `p`. */
  predicate LastWord(members: seq<Member>, i: int, p: Name) {
    0 <= i < |members| && Adds(members[i]) && members[i].name == p && !Replaced(members, i + 1, p)
  }

  lemma ReplacedSnoc(before: seq<Member>, m: Member, from: nat, p: Name)
    requires from <= |before|
    ensures Replaced(before + [m], from, p) <==> Replaced(before, from, p) || Replaces(m, p)
  {
    var all := before + [m];
    assert all[|before|] == m;
    assert forall j :: 0 <= j < |before| ==> all[j] == before[j];
  }

  lemma AddOneAt(entries: Entries, m: Member, p: Name)
    requires AddOne(entries, m).Ok?
    ensures
      var after := AddOne(entries, m).value;
      if Adds(m) && m.name == p then p in after && after[p] == Make(entries, m).value
      else if Replaces(m, p) then p !in after
      else (p in after <==> p in entries) && (p in entries ==> after[p] == entries[p])
  {
  }

  /** Nothing that is not the last word on `p` decides what is there. */
  lemma {:induction false} AddAllAt(entries: Entries, members: seq<Member>, p: Name)
    requires AddAll(entries, members).Ok?
    ensures
      var after := AddAll(entries, members).value;
      if p in entries && !Replaced(members, 0, p) then p in after && after[p] == entries[p]
      else p in after <==> exists i :: LastWord(members, i, p)
    ensures forall i :: LastWord(members, i, p) ==>
      p in AddAll(entries, members).value && AddAll(entries, members[..i]).Ok? &&
      Make(AddAll(entries, members[..i]).value, members[i]) == Ok(AddAll(entries, members).value[p])
  {
    hide Replaces, AddOne, Make, Adds;
    if members != [] {
      var n := |members| - 1;
      var before, m := members[..n], members[n];
      assert members == before + [m];
      AddAllAt(entries, before, p);
      AddOneAt(AddAll(entries, before).value, m, p);
      AddsReplaces(m, p);
      ReplacedSnoc(before, m, 0, p);
      forall i | 0 <= i < n
        ensures LastWord(members, i, p) <==> LastWord(before, i, p) && !Replaces(m, p)
        ensures members[..i] == before[..i]
      {
        ReplacedSnoc(before, m, i + 1, p);
      }
      assert LastWord(members, n, p) <==> Adds(m) && m.name == p;
      forall i | LastWord(members, i, p)
        ensures p in AddAll(entries, members).value && AddAll(entries, members[..i]).Ok?
        ensures Make(AddAll(entries, members[..i]).value, members[i]) == Ok(AddAll(entries, members).value[p])
      {
        if i < n {
          assert LastWord(before, i, p) && members[i] == before[i] && members[..i] == before[..i];
        } else {
          MadeOf(AddAll(entries, before).value, m);
        }
      }
    }
  }

  lemma MadeOf(entries: Entries, m: Member)
    requires AddOne(entries, m).Ok? && Adds(m)
    ensures m.name in AddOne(entries, m).value && Make(entries, m) == Ok(AddOne(entries, m).value[m.name])
  {
  }

  lemma AddsReplaces(m: Member, p: Name)
    ensures Adds(m) && m.name == p ==> Replaces(m, p)
  {
  }

  /** After merging a layer, exactly the surviving lower paths and the layer's own remain, as they should be. */
  lemma MergedExactly(entries: Entries, members: seq<Member>, p: Name)
    requires Merge(entries, members).Ok?
    ensures
      var after := Merge(entries, members).value;
      (p in after <==> Survives(entries, members, p) || exists i :: LastWord(members, i, p)) &&
      (Survives(entries, members, p) ==> after[p] == entries[p])
    ensures forall i :: LastWord(members, i, p) ==>
      var lower := AfterWhiteouts(entries, members);
      AddAll(lower, members[..i]).Ok? && Make(AddAll(lower, members[..i]).value, members[i]) == Ok(Merge(entries, members).value[p])
  {
    hide AddAll, Make, Replaced, Erased, WellMarked;
    AddAllAt(AfterWhiteouts(entries, members), members, p);
    forall i | LastWord(members, i, p)
      ensures Replaced(members, 0, p)
    {
      AtLeastReplaced(members, i, p);
    }
  }

  lemma AtLeastReplaced(members: seq<Member>, i: int, p: Name)
    requires LastWord(members, i, p)
    ensures Replaced(members, 0, p)
  {
    assert Replaces(members[i], p);
  }

  // ---- In plain terms ----

  /** What survives, spelled out: no whiteout of it or of a directory above, no opaque marker above, nothing put in its place. */
  lemma SurvivesMeans(entries: Entries, members: seq<Member>, p: Name)
    ensures Survives(entries, members, p) <==>
      p in entries && forall i :: 0 <= i < |members| ==> Spares(members[i].name, members[i].kind, p)
  {
    forall i | 0 <= i < |members|
      ensures Spares(members[i].name, members[i].kind, p) <==> !Erases(members[i], p) && !Replaces(members[i], p)
    {
      SparesMeans(members[i], p);
    }
  }

  /** A member of this name and kind leaves the lower path `p` alone. */
  predicate Spares(name: Name, kind: Kind, p: Name) {
    var base := Base(name);
    if base == ".wh..wh..opq" then Parent(name) != "." && !(Parent(name) + "/" <= p)
    else if ".wh." <= base then
      base == ".wh." || base == ".wh.." ||
      (p != name[..NameStart(name)] + base[4..] && !(name[..NameStart(name)] + base[4..] + "/" <= p))
    else name == "." || (name != p && (kind.Directory? || !(name + "/" <= p)))
  }

  lemma SparesMeans(m: Member, p: Name)
    ensures Spares(m.name, m.kind, p) <==> !Erases(m, p) && !Replaces(m, p)
  {
    if IsOpaque(m) {
      OpaqueIsMarker(m);
    } else if IsMarker(m) {
      var base := Base(m.name);
      assert base == WHITEOUT + base[4..];
      assert WHITEOUT + "." == ".wh..";
    }
  }

  /** An opaque marker takes away what is below its directory, and everything if that is the root. */
  lemma OpaqueErases(dir: Name, kind: Kind, p: Name)
    ensures Erases(Member(dir + "/" + ".wh..wh..opq", kind), p) <==> dir == "." || dir + "/" <= p
    ensures Erases(Member(".wh..wh..opq", kind), p)
  {
    JoinSplits(dir, ".wh..wh..opq");
    hide Base, Parent, NameStart;
  }

  lemma NotOpaque(dir: Name, name: Name, kind: Kind)
    requires name != ".wh..opq" && forall k :: 0 <= k < |name| ==> name[k] != '/'
    ensures !IsOpaque(Member(dir + "/" + (WHITEOUT + name), kind))
  {
    JoinSplits(dir, WHITEOUT + name);
    hide Base, Parent;
    assert (WHITEOUT + name)[4..] == name && OPAQUE[4..] == ".wh..opq";
  }

  /** A whiteout takes away what it names and everything below, and nothing else. */
  lemma WhiteoutErases(dir: Name, name: Name, kind: Kind, p: Name)
    requires name != "" && name != "." && name != ".wh..opq" && forall k :: 0 <= k < |name| ==> name[k] != '/'
    ensures Erases(Member(dir + "/" + (".wh." + name), kind), p) <==> p == dir + "/" + name || dir + "/" + name + "/" <= p
  {
    var m := Member(dir + "/" + (WHITEOUT + name), kind);
    WhiteoutNames(dir, name, kind);
    NotOpaque(dir, name, kind);
    hide Victim, IsMarker, IsOpaque, Base;
    assert Erases(m, p) <==> p == dir + "/" + name || Under(p, dir + "/" + name);
  }

  /** Member `m`, when it was added, came to hold a file of this content. */
  ghost predicate Gives(entries: Entries, members: seq<Member>, m: nat, content: seq<byte>)
    requires m < |members|
    decreases m, 1
  {
    match members[m].kind
    case Regular(c) => c == content
    case HardLink(target) => target.Some? && Traced(entries, members, m, target.value, content)
    case _ => false
  }

  /** Path `q` held a file of this content just before member `n`: the last one put there, or the lower layers'. */
  ghost predicate Traced(entries: Entries, members: seq<Member>, n: nat, q: Name, content: seq<byte>)
    requires n <= |members|
    decreases n, 0
  {
    (q in entries && entries[q] == File(content) && !Erased(members, q) && !Replaced(members[..n], 0, q)) ||
    exists m: nat :: m < n && LastWord(members[..n], m, q) && Gives(entries, members, m, content)
  }

  lemma {:induction false} FileIsTraced(entries: Entries, members: seq<Member>, n: nat, q: Name, content: seq<byte>)
    requires n <= |members| && AddAll(AfterWhiteouts(entries, members), members[..n]).Ok?
    requires var held := AddAll(AfterWhiteouts(entries, members), members[..n]).value; q in held && held[q] == File(content)
    ensures Traced(entries, members, n, q, content)
    decreases n
  {
    hide AddAll, Erased, Replaced, LastWord;
    var lower, before := AfterWhiteouts(entries, members), members[..n];
    AddAllAt(lower, before, q);
    if !(q in lower && !Replaced(before, 0, q)) {
      var m :| LastWord(before, m, q);
      LastWordInside(before, m, q);
      assert before[..m] == members[..m] && before[m] == members[m];
      var held := AddAll(lower, members[..m]).value;
      assert Make(held, members[m]) == Ok(File(content));
      if members[m].kind.HardLink? {
        FileIsTraced(entries, members, m, members[m].kind.target.value, content);
      }
      assert Gives(entries, members, m, content);
    }
  }

  lemma LastWordInside(members: seq<Member>, i: int, p: Name)
    requires LastWord(members, i, p)
    ensures 0 <= i < |members|
  {
  }

  /**
   * What the last word on a path leaves there, by kind: a file its content, a
   * link its rewritten target, a directory a directory, and a hard link the
   * file its target was when the link was added.
   */
  lemma MergedByKind(entries: Entries, members: seq<Member>, i: int, p: Name)
    requires Merge(entries, members).Ok? && LastWord(members, i, p)
    ensures 0 <= i < |members| && p in Merge(entries, members).value
    ensures var held := Merge(entries, members).value[p];
            match members[i].kind
            case Regular(content) => held == File(content)
            case SymLink(link) => link.Some? && held == Link(link.value)
            case Directory => held == Dir
            case HardLink(target) => held.File? && target.Some? && Traced(entries, members, i, target.value, held.content)
            case Unsupported => false
  {
    MergedExactly(entries, members, p);
    hide AddAll, Erased, Replaced, LastWord, WellMarked;
    LastWordInside(members, i, p);
    var lower, held := AfterWhiteouts(entries, members), Merge(entries, members).value[p];
    assert Make(AddAll(lower, members[..i]).value, members[i]) == Ok(held);
    if members[i].kind.HardLink? {
      FileIsTraced(entries, members, i, members[i].kind.target.value, held.content);
    }
  }

  // ---- Where the markers sit ----

  function Markers(members: seq<Member>): seq<Member> {
    if members == [] then []
    else
      var rest, m := Markers(members[..|members| - 1]), members[|members| - 1];
      if IsMarker(m) then rest + [m] else rest
  }

  function Others(members: seq<Member>): seq<Member> {
    if members == [] then []
    else
      var rest, m := Others(members[..|members| - 1]), members[|members| - 1];
      if IsMarker(m) then rest else rest + [m]
  }

  lemma {:induction false} MarkersAreMembers(members: seq<Member>, m: Member)
    ensures m in Markers(members) <==> m in members && IsMarker(m)
  {
    if members != [] {
      var n := |members| - 1;
      MarkersAreMembers(members[..n], m);
      assert members == members[..n] + [members[n]];
    }
  }

  lemma OpaqueIsMarker(m: Member)
    requires IsOpaque(m)
    ensures IsMarker(m)
  {
    assert OPAQUE[..4] == WHITEOUT;
  }

  /** The same markers take the same paths away, and are as well formed. */
  lemma SameMarkers(a: seq<Member>, b: seq<Member>, p: Name)
    requires multiset(Markers(a)) == multiset(Markers(b))
    ensures Erased(a, p) ==> Erased(b, p)
    ensures WellMarked(b) ==> WellMarked(a)
  {
    hide Erases, IsOpaque, IsMarker, Markers, Victim;
    forall i | 0 <= i < |a| && IsMarker(a[i])
      ensures exists j :: 0 <= j < |b| && b[j] == a[i]
    {
      MarkersAreMembers(a, a[i]);
      assert a[i] in multiset(Markers(b));
      MarkersAreMembers(b, a[i]);
    }
    if Erased(a, p) {
      var i :| 0 <= i < |a| && Erases(a[i], p);
      ErasersAreMarkers(a[i], p);
      var j :| 0 <= j < |b| && b[j] == a[i];
    }
  }

  lemma ErasersAreMarkers(m: Member, p: Name)
    requires Erases(m, p)
    ensures IsMarker(m)
  {
    hide Victim, IsMarker;
    if IsOpaque(m) {
      OpaqueIsMarker(m);
    }
  }

  /** Adding skips the markers. */
  lemma {:induction false} AddAllSkipsMarkers(entries: Entries, members: seq<Member>)
    ensures AddAll(entries, members) == AddAll(entries, Others(members))
  {
    hide AddOne, IsMarker;
    if members != [] {
      var n := |members| - 1;
      AddAllSkipsMarkers(entries, members[..n]);
      if IsMarker(members[n]) {
        MarkerAddsNothing(entries, members[..n], members[n]);
      } else {
        var others := Others(members);
        assert others[..|others| - 1] == Others(members[..n]);
      }
    }
  }

  lemma MarkerAddsNothing(entries: Entries, before: seq<Member>, m: Member)
    requires IsMarker(m)
    ensures AddAll(entries, before).Ok? ==> AddOne(AddAll(entries, before).value, m) == AddAll(entries, before)
  {
  }

  /** Wherever the markers sit in a layer, and in whatever order, it makes the same tree of the same lower one. */
  lemma OrderDoesNotMatter(entries: Entries, a: seq<Member>, b: seq<Member>)
    requires multiset(Markers(a)) == multiset(Markers(b)) && Others(a) == Others(b)
    ensures Merge(entries, a) == Merge(entries, b)
  {
    hide Erased, WellMarked, AddAll, Markers, Others;
    forall p
      ensures Erased(a, p) <==> Erased(b, p)
      ensures WellMarked(a) <==> WellMarked(b)
    {
      SameMarkers(a, b, p);
      SameMarkers(b, a, p);
    }
    SameMarkers(a, b, "");
    SameMarkers(b, a, "");
    assert AfterWhiteouts(entries, a) == AfterWhiteouts(entries, b);
    AddAllSkipsMarkers(AfterWhiteouts(entries, a), a);
    AddAllSkipsMarkers(AfterWhiteouts(entries, b), b);
  }

  // ---- Merging in place ----

  class Tree {
    var entries: Entries

    constructor ()
      ensures entries == map[]
    {
      entries := map[];
    }

    /** Take away what is below `dir`, `dir` itself too if `whole`, and everything if `dir` is the root. */
    method Remove(dir: Name, whole: bool, all: bool)
      modifies this
      ensures entries == map p | p in old(entries) && !(all || Under(p, dir) || (whole && p == dir)) :: old(entries)[p]
    {
      var names := entries.Keys;
      ghost var before := entries;
      while names != {}
        invariant names <= before.Keys && names <= entries.Keys
        invariant forall p :: p in entries <==> p in before && (p in names || !(all || Under(p, dir) || (whole && p == dir)))
        invariant forall p :: p in entries ==> entries[p] == before[p]
        decreases names
      {
        var name :| name in names;
        names := names - {name};
        if all || Under(name, dir) || (whole && name == dir) {
          entries := entries - {name};
        }
      }
    }

    method ApplyMarker(m: Member) returns (ok: bool)
      modifies this
      ensures ok <==> IsWhiteout(m) ==> Victim(m).Ok?
      ensures ok ==> entries == map p | p in old(entries) && !Erases(m, p) :: old(entries)[p]
    {
      if IsOpaque(m) {
        Remove(Parent(m.name), false, Parent(m.name) == ".");
      } else if IsMarker(m) {
        var victim := Victim(m);
        if victim.Err? {
          return false;
        }
        Remove(victim.value, true, false);
      }
      ok := true;
    }

    method Add(m: Member) returns (ok: bool)
      modifies this
      ensures ok <==> AddOne(old(entries), m).Ok?
      ensures ok ==> entries == AddOne(old(entries), m).value
    {
      if !Adds(m) {
        return true;
      }
      var made := Make(entries, m);
      if made.Err? {
        return false;
      }
      if !made.value.Dir? {
        Remove(m.name, false, false);
      }
      entries := entries[m.name := made.value];
      ok := true;
    }

    /** The first pass: what the layer's markers take away from the layers below. */
    method ApplyMarkers(members: seq<Member>) returns (ok: bool)
      modifies this
      ensures ok <==> WellMarked(members)
      ensures ok ==> entries == AfterWhiteouts(old(entries), members)
    {
      hide Erases, Victim, IsOpaque, IsMarker;
      ghost var before := entries;
      assert entries == AfterWhiteouts(before, members[..0]);
      for i := 0 to |members|
        invariant WellMarked(members[..i]) && entries == AfterWhiteouts(before, members[..i])
      {
        ok := ApplyMarker(members[i]);
        if !ok {
          return;
        }
        ErasedSnoc(before, members[..i], members[i]);
        assert members[..i] + [members[i]] == members[..i + 1];
      }
      assert members[..|members|] == members;
      ok := true;
    }

    /** The second pass: what the layer adds. */
    method AddMembers(members: seq<Member>) returns (ok: bool)
      modifies this
      ensures ok <==> AddAll(old(entries), members).Ok?
      ensures ok ==> entries == AddAll(old(entries), members).value
    {
      hide AddOne;
      ghost var lower := entries;
      for i := 0 to |members|
        invariant AddAll(lower, members[..i]) == Ok(entries)
      {
        assert members[..i + 1][..i] == members[..i];
        ok := Add(members[i]);
        if !ok {
          FailsForGood(lower, members, i + 1);
          return;
        }
      }
      assert members[..|members|] == members;
      ok := true;
    }

    /** Merge a layer over the ones below it. */
    method MergeLayer(members: seq<Member>) returns (ok: bool)
      modifies this
      ensures ok <==> Merge(old(entries), members).Ok?
      ensures ok ==> entries == Merge(old(entries), members).value
    {
      hide WellMarked, AfterWhiteouts, AddAll;
      ok := ApplyMarkers(members);
      if ok {
        ok := AddMembers(members);
      }
    }
  }

  lemma ErasedSnoc(entries: Entries, before: seq<Member>, m: Member)
    ensures AfterWhiteouts(entries, before + [m]) == map p | p in AfterWhiteouts(entries, before) && !Erases(m, p) :: AfterWhiteouts(entries, before)[p]
  {
    hide Erases;
    var all := before + [m];
    forall p | p in entries
      ensures Erased(all, p) <==> Erased(before, p) || Erases(m, p)
    {
      assert all[|before|] == m;
      assert forall j :: 0 <= j < |before| ==> all[j] == before[j];
    }
  }

  lemma {:induction false} FailsForGood(entries: Entries, members: seq<Member>, n: nat)
    requires n <= |members| && AddAll(entries, members[..n]).Err?
    ensures AddAll(entries, members).Err?
    decreases |members|
  {
    if n < |members| {
      assert members[..|members| - 1][..n] == members[..n];
      FailsForGood(entries, members[..|members| - 1], n);
    } else {
      assert members[..n] == members;
    }
  }
}
