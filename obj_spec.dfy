/*
 * What the two passes of the OBJ loader compute, as functions of the record
 * stream, and how the two relate.
 *
 * Count is pass 1: it tallies the vertex, normal, texcoord and triangle
 * records for the whole model and the triangles per group, and fails on a
 * `v` record of unknown kind. Filled is pass 2's triangle work: the triangle
 * table in file order and, per group name, the triangle indices appended to
 * that group. Positions, Normals and TexCoords are the coordinate data pass 2
 * stores, in file order.
 *
 * Every function here is a left fold (a stream is its prefix plus one last
 * record), matching how the loader's loops advance.
 */
module ObjSpec {
  import opened ObjRecords

  /** The group pass 1 creates before reading any record. */
  const DefaultGroup: string := "default"

  /** No name occurs twice. */
  predicate Unique(names: seq<string>) {
    forall i, j :: 0 <= i < j < |names| ==> names[i] != names[j]
  }

  /** The position of the first group called `name`, walking from the head of the list. */
  function FirstIndex(names: seq<string>, name: string): (k: nat)
    requires name in names
    ensures k < |names| && names[k] == name
    ensures forall j :: 0 <= j < k ==> names[j] != name
  {
    if names[0] == name then 0 else 1 + FirstIndex(names[1..], name)
  }

  /** The group names after find-or-create of `name`: a new name goes in front. */
  function AddName(names: seq<string>, name: string): (r: seq<string>)
    ensures name in r
    ensures |r| == if name in names then |names| else |names| + 1
    ensures name !in names ==> r[0] == name
  {
    if name in names then names else [name] + names
  }

  /** Find-or-create adds exactly `name` to the names. */
  lemma AddNameMembers(names: seq<string>, name: string)
    ensures forall n :: n in AddName(names, name) <==> n == name || n in names
  {
  }

  /**
   * Find-or-create keeps the names unique and leaves the names already
   * there in their order at the tail of the list.
   */
  lemma AddNameKeeps(names: seq<string>, name: string)
    ensures Unique(names) ==> Unique(AddName(names, name))
    ensures forall k :: 0 <= k < |names| ==> AddName(names, name)[|AddName(names, name)| - |names| + k] == names[k]
  {
  }

  // ----- pass 1 -----

  /** What pass 1 has counted so far, and the group structure it has built. */
  datatype Tally = Tally(
    numvertices: nat,
    numnormals: nat,
    numtexcoords: nat,
    numtriangles: nat,
    names: seq<string>,           // the group list, head first
    counts: map<string, nat>,     // triangles counted per group
    cur: string,                  // the current group
    mtllib: Option<string>)       // the last material library named

  /** A group's count, 0 for a group not yet counted. */
  function CountOf(counts: map<string, nat>, name: string): nat {
    if name in counts then counts[name] else 0
  }

  /** The state before any record: only the default group, which is current. */
  const Start: Tally := Tally(0, 0, 0, 0, [DefaultGroup], map[DefaultGroup := 0], DefaultGroup, None)

  /** Pass 1 on one record; None is the fatal `v` record of unknown kind. */
  function CountStep<C>(t: Tally, r: Record<C>): Option<Tally> {
    match r
    case Vertex(_) => Some(t.(numvertices := t.numvertices + 1))
    case Normal(_) => Some(t.(numnormals := t.numnormals + 1))
    case TexCoord(_) => Some(t.(numtexcoords := t.numtexcoords + 1))
    case BadVertexKind => None
    case MtlLib(file) => Some(t.(mtllib := Some(file)))
    case GroupDir(name) =>
      Some(t.(names := AddName(t.names, name), counts := t.counts[name := CountOf(t.counts, name)], cur := name))
    case Face(_, refs) =>
      Some(t.(numtriangles := t.numtriangles + FanSize(refs),
              counts := t.counts[t.cur := CountOf(t.counts, t.cur) + FanSize(refs)]))
    case Comment => Some(t)
    case UseMtl => Some(t)
    case Unknown => Some(t)
  }

  /** Pass 1 over a whole stream. */
  function Count<C>(recs: seq<Record<C>>): Option<Tally> {
    if recs == [] then Some(Start)
    else match Count(recs[..|recs| - 1])
      case None => None
      case Some(t) => CountStep(t, recs[|recs| - 1])
  }

  /** The shape every tally of pass 1 keeps. */
  ghost predicate Consistent(t: Tally) {
    && Unique(t.names)
    && t.cur in t.names
    && DefaultGroup in t.names
    && t.names[|t.names| - 1] == DefaultGroup
    && (forall n :: n !in t.names ==> CountOf(t.counts, n) == 0)
  }

  /** The sum of the counts of the listed groups. */
  function Total(names: seq<string>, counts: map<string, nat>): nat {
    if names == [] then 0 else CountOf(counts, names[0]) + Total(names[1..], counts)
  }

  // ----- pass 2 -----

  /** The coordinates of the `v` records, in file order. */
  function Positions<C>(recs: seq<Record<C>>): seq<Coord3<C>> {
    if recs == [] then []
    else
      var last := recs[|recs| - 1];
      Positions(recs[..|recs| - 1]) + if last.Vertex? then [last.pos] else []
  }

  /** The coordinates of the `vn` records, in file order. */
  function Normals<C>(recs: seq<Record<C>>): seq<Coord3<C>> {
    if recs == [] then []
    else
      var last := recs[|recs| - 1];
      Normals(recs[..|recs| - 1]) + if last.Normal? then [last.normal] else []
  }

  /** The coordinates of the `vt` records, in file order. */
  function TexCoords<C>(recs: seq<Record<C>>): seq<Coord2<C>> {
    if recs == [] then []
    else
      var last := recs[|recs| - 1];
      TexCoords(recs[..|recs| - 1]) + if last.TexCoord? then [last.tex] else []
  }

  /** Pass 2's triangle work so far: the triangle table and each group's appended indices. */
  datatype FillState = FillState(tris: seq<Triangle>, lists: map<string, seq<nat>>, cur: string)

  /** A group's entry in a table of lists, empty for a group without one. */
  function ListIn(lists: map<string, seq<nat>>, name: string): seq<nat> {
    if name in lists then lists[name] else []
  }

  /** The indices appended to a group, empty for a group not yet appended to. */
  function ListOf(f: FillState, name: string): seq<nat> {
    ListIn(f.lists, name)
  }

  /** lo, lo + 1, ..., lo + m - 1. */
  function Range(lo: nat, m: nat): (s: seq<nat>)
    ensures |s| == m
    ensures forall k :: 0 <= k < m ==> s[k] == lo + k
  {
    seq(m, k requires 0 <= k < m => lo + k)
  }

  /** Pass 2 on one record: a `g` switches groups, a face is triangulated into the current one. */
  function FillStep<C>(f: FillState, r: Record<C>): FillState {
    match r
    case GroupDir(name) => f.(cur := name)
    case Face(g, refs) =>
      f.(tris := f.tris + Fan(g, refs),
         lists := f.lists[f.cur := ListOf(f, f.cur) + Range(|f.tris|, FanSize(refs))])
    case _ => f
  }

  /** Pass 2 over a whole stream, starting in group `start`. */
  function Filled<C>(start: string, recs: seq<Record<C>>): FillState {
    if recs == [] then FillState([], map[], start)
    else FillStep(Filled(start, recs[..|recs| - 1]), recs[|recs| - 1])
  }

  /** Whether the stream has a `g` record. */
  predicate HasGroupDir<C>(recs: seq<Record<C>>) {
    recs != [] && (HasGroupDir(recs[..|recs| - 1]) || recs[|recs| - 1].GroupDir?)
  }

  /**
   * Pass 1 counts faces before the first `g` into "default", pass 2 appends
   * them to the head of the group list. The two agree when there is no `g`
   * record (the head is then "default") or when no face precedes the first.
   */
  predicate Aligned<C>(recs: seq<Record<C>>) {
    HasGroupDir(recs) ==> forall i :: 0 <= i < |recs| && recs[i].Face? ==> HasGroupDir(recs[..i])
  }

  /** The names the stream's `g` records give. */
  function GroupDirNames<C>(recs: seq<Record<C>>): set<string> {
    if recs == [] then {}
    else
      var last := recs[|recs| - 1];
      GroupDirNames(recs[..|recs| - 1]) + if last.GroupDir? then {last.name} else {}
  }

  /** Every `g` record of recs names one of names. */
  predicate GroupDirsIn<C>(recs: seq<Record<C>>, names: seq<string>) {
    forall j :: 0 <= j < |recs| && recs[j].GroupDir? ==> recs[j].name in names
  }

  /** Pass 2's results for a stream: its coordinates, its triangle work and the groups its `g` records name. */
  datatype Progress<C> = Progress(ps: seq<Coord3<C>>, ns: seq<Coord3<C>>, ts: seq<Coord2<C>>, fill: FillState, named: set<string>)

  /** Pass 2's results for a whole stream, starting in group `start`. */
  function ProgressOf<C>(start: string, recs: seq<Record<C>>): Progress<C> {
    Progress(Positions(recs), Normals(recs), TexCoords(recs), Filled(start, recs), GroupDirNames(recs))
  }

  /** Pass 2's results after one more record. */
  function Advance<C>(g: Progress<C>, r: Record<C>): Progress<C> {
    Progress(g.ps + (if r.Vertex? then [r.pos] else []),
             g.ns + (if r.Normal? then [r.normal] else []),
             g.ts + (if r.TexCoord? then [r.tex] else []),
             FillStep(g.fill, r),
             g.named + if r.GroupDir? then {r.name} else {})
  }

  /**
   * After the results g, the results total of the whole stream leave room
   * for r: one more coordinate of its kind, or its fan in the table and in
   * the current group's list.
   */
  predicate Fits<C>(g: Progress<C>, total: Progress<C>, r: Record<C>) {
    && (r.Vertex? ==> |g.ps| < |total.ps|)
    && (r.Normal? ==> |g.ns| < |total.ns|)
    && (r.TexCoord? ==> |g.ts| < |total.ts|)
    && (r.Face? ==>
          && |g.fill.tris| + FanSize(r.refs) <= |total.fill.tris|
          && |ListOf(g.fill, g.fill.cur)| + FanSize(r.refs) <= |ListOf(total.fill, g.fill.cur)|)
  }

  /** Triangle x is in some group's list. */
  ghost predicate Listed(f: FillState, x: nat) {
    exists name :: x in ListOf(f, name)
  }

  /**
   * A face reference names a vertex in 1 .. nv and, where the grammar
   * carries them, a texcoord in 1 .. nt and a normal in 1 .. nn.
   */
  predicate RefIn(g: Grammar, r: Ref, nv: nat, nt: nat, nn: nat) {
    && 1 <= r.v <= nv
    && (WritesTex(g) ==> 1 <= r.t <= nt)
    && (WritesNormal(g) ==> 1 <= r.n <= nn)
  }

  /** Every reference of every face record is in range of nv, nt and nn. */
  predicate RefsWithin<C>(recs: seq<Record<C>>, nv: nat, nt: nat, nn: nat) {
    forall i, k :: 0 <= i < |recs| && recs[i].Face? && 0 <= k < |recs[i].refs| ==>
      RefIn(recs[i].grammar, recs[i].refs[k], nv, nt, nn)
  }

  /**
   * Every face reference names one of the file's own positions and, where
   * its grammar carries them, one of its texcoords and normals.
   */
  predicate RefsInRange<C>(recs: seq<Record<C>>) {
    RefsWithin(recs, |Positions(recs)|, |TexCoords(recs)|, |Normals(recs)|)
  }

  /** Three indices in 1 .. n. */
  predicate IdxIn(s: Idx3, n: nat) {
    forall c :: 0 <= c < 3 ==> 1 <= s[c] <= n
  }

  /**
   * A triangle's vertex indices are in 1 .. nv; its texcoord and normal
   * indices are in 1 .. nt and 1 .. nn, or blank where no grammar wrote them.
   */
  predicate TriangleIn(t: Triangle, nv: nat, nt: nat, nn: nat) {
    && IdxIn(t.vindices, nv)
    && (t.tindices == Blank.tindices || IdxIn(t.tindices, nt))
    && (t.nindices == Blank.nindices || IdxIn(t.nindices, nn))
  }

  /** Strictly increasing and below `bound`. */
  predicate OrderedBelow(s: seq<nat>, bound: nat) {
    (forall a, b :: 0 <= a < b < |s| ==> s[a] < s[b]) && (forall a :: 0 <= a < |s| ==> s[a] < bound)
  }

  // ----- lemmas -----

  /** A stream pass 1 accepts has every prefix accepted too. */
  lemma {:induction false} CountPrefix<C>(recs: seq<Record<C>>, i: nat)
    requires i <= |recs|
    requires Count(recs).Some?
    ensures Count(recs[..i]).Some?
    decreases |recs|
  {
    if i < |recs| {
      var q := recs[..|recs| - 1];
      assert q[..i] == recs[..i];
      CountPrefix(q, i);
    } else {
      assert recs[..i] == recs;
    }
  }

  /** A `g` record keeps a tally consistent. */
  lemma GroupDirConsistent(t: Tally, name: string)
    requires Consistent(t)
    ensures Consistent(t.(names := AddName(t.names, name), counts := t.counts[name := CountOf(t.counts, name)], cur := name))
  {
    var names := AddName(t.names, name);
    var counts := t.counts[name := CountOf(t.counts, name)];
    if name !in t.names {
      assert names == [name] + t.names;
      assert names[|names| - 1] == t.names[|t.names| - 1];
      forall i, j | 0 <= i < j < |names|
        ensures names[i] != names[j]
      {
        if i > 0 {
          assert names[i] == t.names[i - 1];
        }
        assert names[j] == t.names[j - 1];
      }
      forall n | n !in names
        ensures CountOf(counts, n) == 0
      {
        assert n != name && n !in t.names;
      }
    }
  }

  /** A face keeps a tally consistent. */
  lemma FaceConsistent(t: Tally, k: nat)
    requires Consistent(t)
    ensures Consistent(t.(numtriangles := t.numtriangles + k, counts := t.counts[t.cur := CountOf(t.counts, t.cur) + k]))
  {
    var counts := t.counts[t.cur := CountOf(t.counts, t.cur) + k];
    forall n | n !in t.names
      ensures CountOf(counts, n) == 0
    {
      assert n != t.cur;
    }
  }

  /** One record keeps a tally consistent. */
  lemma CountStepConsistent<C>(t: Tally, r: Record<C>)
    requires Consistent(t) && CountStep(t, r).Some?
    ensures Consistent(CountStep(t, r).value)
  {
    match r
    case GroupDir(name) => GroupDirConsistent(t, name);
    case Face(_, refs) => FaceConsistent(t, FanSize(refs));
    case _ =>
  }

  /** Pass 1 keeps its group list unique, with "default" at the tail and the current group in it. */
  lemma {:induction false} CountConsistent<C>(recs: seq<Record<C>>)
    requires Count(recs).Some?
    ensures Consistent(Count(recs).value)
  {
    if recs != [] {
      var q := recs[..|recs| - 1];
      CountConsistent(q);
      CountStepConsistent(Count(q).value, recs[|recs| - 1]);
    }
  }

  /** The totals pass 1 counts are the sizes of what pass 2 stores. */
  lemma {:induction false} CountMatchesData<C>(recs: seq<Record<C>>, start: string)
    requires Count(recs).Some?
    ensures Count(recs).value.numvertices == |Positions(recs)|
    ensures Count(recs).value.numnormals == |Normals(recs)|
    ensures Count(recs).value.numtexcoords == |TexCoords(recs)|
    ensures Count(recs).value.numtriangles == |Filled(start, recs).tris|
  {
    if recs != [] {
      CountMatchesData(recs[..|recs| - 1], start);
    }
  }

  /** Every `g` name of an accepted stream ends up in the group list. */
  lemma {:induction false} GroupNamesListed<C>(recs: seq<Record<C>>)
    requires Count(recs).Some?
    ensures forall k :: 0 <= k < |recs| && recs[k].GroupDir? ==> recs[k].name in Count(recs).value.names
  {
    if recs != [] {
      var q := recs[..|recs| - 1];
      GroupNamesListed(q);
      if recs[|recs| - 1].GroupDir? {
        AddNameMembers(Count(q).value.names, recs[|recs| - 1].name);
      }
      forall k | 0 <= k < |recs| && recs[k].GroupDir?
        ensures recs[k].name in Count(recs).value.names
      {
        if k < |q| {
          assert q[k] == recs[k];
        }
      }
    }
  }

  /** Without a `g` record, the only group is "default". */
  lemma {:induction false} NoGroupDirOnlyDefault<C>(recs: seq<Record<C>>)
    requires Count(recs).Some?
    requires !HasGroupDir(recs)
    ensures Count(recs).value.names == [DefaultGroup]
    ensures Count(recs).value.cur == DefaultGroup
  {
    if recs != [] {
      NoGroupDirOnlyDefault(recs[..|recs| - 1]);
    }
  }

  /** The total only depends on the counts of the listed groups. */
  lemma {:induction false} TotalSame(names: seq<string>, c1: map<string, nat>, c2: map<string, nat>)
    requires forall n :: n in names ==> CountOf(c1, n) == CountOf(c2, n)
    ensures Total(names, c1) == Total(names, c2)
  {
    if names != [] {
      TotalSame(names[1..], c1, c2);
    }
  }

  /** Adding k to one listed group adds k to the total. */
  lemma {:induction false} TotalBump(names: seq<string>, counts: map<string, nat>, name: string, k: nat)
    requires Unique(names) && name in names
    ensures Total(names, counts[name := CountOf(counts, name) + k]) == Total(names, counts) + k
  {
    if names[0] == name {
      assert name !in names[1..];
      TotalSame(names[1..], counts[name := CountOf(counts, name) + k], counts);
    } else {
      TotalBump(names[1..], counts, name, k);
    }
  }

  /** A `g` record keeps the group counts adding up to the triangle count. */
  lemma GroupDirTotal(names: seq<string>, counts: map<string, nat>, name: string)
    requires name !in names ==> CountOf(counts, name) == 0
    ensures Total(AddName(names, name), counts[name := CountOf(counts, name)]) == Total(names, counts)
  {
    var counts' := counts[name := CountOf(counts, name)];
    TotalSame(names, counts', counts);
    if name !in names {
      var names' := [name] + names;
      assert names'[1..] == names;
      assert Total(names', counts') == CountOf(counts', name) + Total(names, counts');
    }
  }

  /** One record keeps the group counts adding up to the triangle count. */
  lemma CountStepTotal<C>(t: Tally, r: Record<C>)
    requires Consistent(t) && CountStep(t, r).Some?
    requires Total(t.names, t.counts) == t.numtriangles
    ensures Total(CountStep(t, r).value.names, CountStep(t, r).value.counts) == CountStep(t, r).value.numtriangles
  {
    match r
    case GroupDir(name) => GroupDirTotal(t.names, t.counts, name);
    case Face(_, refs) => TotalBump(t.names, t.counts, t.cur, FanSize(refs));
    case _ =>
  }

  /** After pass 1 the per-group counts add up to the model's triangle count. */
  lemma {:induction false} CountsSumToTriangles<C>(recs: seq<Record<C>>)
    requires Count(recs).Some?
    ensures Total(Count(recs).value.names, Count(recs).value.counts) == Count(recs).value.numtriangles
  {
    if recs == [] {
      assert Total([DefaultGroup], map[DefaultGroup := 0]) == 0 + Total([], map[DefaultGroup := 0]);
    } else {
      var q := recs[..|recs| - 1];
      CountsSumToTriangles(q);
      CountConsistent(q);
      CountStepTotal(Count(q).value, recs[|recs| - 1]);
    }
  }

  /** A group pass 1 has not listed has nothing counted. */
  lemma UnlistedUncounted<C>(recs: seq<Record<C>>, name: string)
    requires Count(recs).Some?
    requires name !in Count(recs).value.names
    ensures CountOf(Count(recs).value.counts, name) == 0
  {
    CountConsistent(recs);
  }

  /** Pass 1 on one more record of the stream. */
  lemma CountNext<C>(recs: seq<Record<C>>, i: nat)
    requires i < |recs|
    requires Count(recs[..i]).Some?
    ensures Count(recs[..i + 1]) == CountStep(Count(recs[..i]).value, recs[i])
  {
    assert recs[..i + 1][..i] == recs[..i];
  }

  /** Once pass 1 has failed on a prefix, it fails on the whole stream. */
  lemma {:induction false} CountFailureSticks<C>(recs: seq<Record<C>>, i: nat)
    requires i <= |recs|
    requires Count(recs[..i]).None?
    ensures Count(recs).None?
    decreases |recs|
  {
    if i == |recs| {
      assert recs[..i] == recs;
    } else {
      var q := recs[..|recs| - 1];
      assert q[..i] == recs[..i];
      CountFailureSticks(q, i);
    }
  }

  /**
   * The record at position i fits in what the whole stream needs: one more
   * coordinate of its kind, or its fan in the table and in the current
   * group's list; and pass 2's results grow by it as Advance says.
   */
  lemma NextFits<C>(recs: seq<Record<C>>, start: string, i: nat)
    requires i < |recs|
    ensures ProgressOf(start, recs[..i + 1]) == Advance(ProgressOf(start, recs[..i]), recs[i])
    ensures Fits(ProgressOf(start, recs[..i]), ProgressOf(start, recs), recs[i])
  {
    assert recs[..i + 1] == recs[..i] + [recs[i]];
    FillPrefix(recs, start, i + 1);
    FillNext(recs[..i], recs[i], start);
  }

  /** Pass 2's results for a stream and one more record. */
  lemma FillNext<C>(p: seq<Record<C>>, r: Record<C>, start: string)
    ensures ProgressOf(start, p + [r]) == Advance(ProgressOf(start, p), r)
  {
    assert (p + [r])[..|p|] == p;
  }

  /** Everything pass 2 has produced for a prefix is a prefix of what it produces for the whole stream. */
  lemma {:induction false} FillPrefix<C>(recs: seq<Record<C>>, start: string, i: nat)
    requires i <= |recs|
    ensures Positions(recs[..i]) <= Positions(recs)
    ensures Normals(recs[..i]) <= Normals(recs)
    ensures TexCoords(recs[..i]) <= TexCoords(recs)
    ensures Filled(start, recs[..i]).tris <= Filled(start, recs).tris
    ensures forall name :: ListOf(Filled(start, recs[..i]), name) <= ListOf(Filled(start, recs), name)
    decreases |recs|
  {
    if i == |recs| {
      assert recs[..i] == recs;
    } else {
      var q := recs[..|recs| - 1];
      assert q[..i] == recs[..i];
      FillPrefix(q, start, i);
      var f, g := Filled(start, recs[..i]), Filled(start, q);
      forall name
        ensures ListOf(f, name) <= ListOf(Filled(start, recs), name)
      {
        assert ListOf(f, name) <= ListOf(g, name);
        assert ListOf(g, name) <= ListOf(Filled(start, recs), name);
      }
    }
  }

  /**
   * One record keeps the two passes in step: if pass 2 has appended to every
   * group as many indices as pass 1 counted, and a face finds both passes in
   * the same group, that stays so.
   */
  lemma AgreeStep<C>(t: Tally, f: FillState, r: Record<C>)
    requires CountStep(t, r).Some?
    requires forall name :: |ListOf(f, name)| == CountOf(t.counts, name)
    requires r.Face? ==> f.cur == t.cur
    ensures forall name :: |ListOf(FillStep(f, r), name)| == CountOf(CountStep(t, r).value.counts, name)
    ensures r.GroupDir? ==> FillStep(f, r).cur == CountStep(t, r).value.cur
    ensures !r.GroupDir? ==> FillStep(f, r).cur == f.cur && CountStep(t, r).value.cur == t.cur
  {
    var f', t' := FillStep(f, r), CountStep(t, r).value;
    forall name
      ensures |ListOf(f', name)| == CountOf(t'.counts, name)
    {
      if r.Face? && name == t.cur {
        assert ListOf(f', name) == ListOf(f, name) + Range(|f.tris|, FanSize(r.refs));
      } else {
        assert ListOf(f', name) == ListOf(f, name);
      }
    }
  }

  /**
   * Under Aligned, pass 2 appends to every group exactly as many indices as
   * pass 1 counted for it, when pass 2 starts from the head of the group list.
   */
  lemma {:induction false} PassesAgreeUpTo<C>(recs: seq<Record<C>>, start: string, n: nat)
    requires n <= |recs|
    requires Count(recs).Some?
    requires Aligned(recs)
    requires !HasGroupDir(recs) ==> start == DefaultGroup
    ensures Count(recs[..n]).Some?
    ensures forall name :: |ListOf(Filled(start, recs[..n]), name)| == CountOf(Count(recs[..n]).value.counts, name)
    ensures HasGroupDir(recs[..n]) ==> Filled(start, recs[..n]).cur == Count(recs[..n]).value.cur
    ensures !HasGroupDir(recs[..n]) ==> Count(recs[..n]).value.cur == DefaultGroup && Filled(start, recs[..n]).cur == start
  {
    CountPrefix(recs, n);
    if n > 0 {
      PassesAgreeUpTo(recs, start, n - 1);
      var p, q := recs[..n], recs[..n - 1];
      assert p[..|p| - 1] == q;
      var r := recs[n - 1];
      assert p[|p| - 1] == r;
      if r.Face? && !HasGroupDir(q) {
        // a face before any `g`: Aligned leaves only the stream without `g`
        assert !HasGroupDir(recs);
      }
      AgreeStep(Count(q).value, Filled(start, q), r);
    }
  }

  /** The agreement at the end of the stream: each group is filled to its count. */
  lemma PassesAgree<C>(recs: seq<Record<C>>)
    requires Count(recs).Some?
    requires Aligned(recs)
    ensures Count(recs).value.names != []
    ensures forall name :: |ListOf(Filled(Count(recs).value.names[0], recs), name)| == CountOf(Count(recs).value.counts, name)
  {
    var t := Count(recs).value;
    CountConsistent(recs);
    if !HasGroupDir(recs) {
      NoGroupDirOnlyDefault(recs);
    }
    PassesAgreeUpTo(recs, t.names[0], |recs|);
    assert recs[..|recs|] == recs;
  }

  /**
   * Pass 2, started at the head of pass 1's group list, appends to some
   * group more triangles than pass 1 counted for it.
   */
  predicate Overflows<C>(t: Tally, recs: seq<Record<C>>) {
    exists k :: 0 <= k < |t.names| && |ListOf(Filled(t.names[0], recs), t.names[k])| > CountOf(t.counts, t.names[k])
  }

  /**
   * A face before the first `g` overflows: pass 1 counts it into "default",
   * but pass 2 appends it to the group the `g` put at the head of the list,
   * whose storage was sized 0.
   */
  lemma FaceBeforeGroupOverflows()
    ensures var recs: seq<Record<real>> := [Face(PosOnly, [Ref(1, 0, 0), Ref(2, 0, 0), Ref(3, 0, 0)]), GroupDir("g")];
      && Count(recs).Some? && Count(recs).value.names == ["g", DefaultGroup]
      && Overflows(Count(recs).value, recs)
  {
    var recs: seq<Record<real>> := [Face(PosOnly, [Ref(1, 0, 0), Ref(2, 0, 0), Ref(3, 0, 0)]), GroupDir("g")];
    assert FanSize(recs[0].refs) == 1;
    assert recs[..1][..0] == [];
    assert Count(recs[..1]) == CountStep(Start, recs[0]);
    var t1 := Count(recs[..1]).value;
    assert t1.cur == DefaultGroup && t1.names == [DefaultGroup];
    assert recs[..|recs| - 1] == recs[..1];
    var names := AddName([DefaultGroup], "g");
    AddNameKeeps([DefaultGroup], "g");
    assert names == ["g", DefaultGroup];
    assert Count(recs) == CountStep(t1, recs[1]);
    var t := Count(recs).value;
    assert CountOf(t.counts, "g") == 0;
    assert Filled("g", recs[..1]) == FillStep(Filled("g", recs[..0]), recs[0]);
    assert |ListOf(Filled("g", recs), "g")| == 1;
  }

  /**
   * Aligned is not needed for a file to load: a face before a `g` that
   * names "default" creates no group, so "default" stays at the head of the
   * list and pass 2 appends the face where pass 1 counted it.
   */
  lemma FaceBeforeDefaultFits()
    ensures var recs: seq<Record<real>> := [Face(PosOnly, [Ref(1, 0, 0), Ref(2, 0, 0), Ref(3, 0, 0)]), GroupDir(DefaultGroup)];
      && Count(recs).Some? && Count(recs).value.names == [DefaultGroup]
      && !Aligned(recs) && !Overflows(Count(recs).value, recs)
  {
    var recs: seq<Record<real>> := [Face(PosOnly, [Ref(1, 0, 0), Ref(2, 0, 0), Ref(3, 0, 0)]), GroupDir(DefaultGroup)];
    assert FanSize(recs[0].refs) == 1;
    assert recs[..1][..0] == [];
    assert Count(recs[..1]) == CountStep(Start, recs[0]);
    assert recs[..|recs| - 1] == recs[..1];
    assert Count(recs) == CountStep(Count(recs[..1]).value, recs[1]);
    var t := Count(recs).value;
    assert t.names == [DefaultGroup] && CountOf(t.counts, DefaultGroup) == 1;
    assert Filled(DefaultGroup, recs[..1]) == FillStep(Filled(DefaultGroup, recs[..0]), recs[0]);
    assert |ListOf(Filled(DefaultGroup, recs), DefaultGroup)| == 1;
    assert HasGroupDir(recs) && !HasGroupDir(recs[..0]);
  }

  /** On Aligned records no group outgrows the storage pass 1 sized for it. */
  lemma AlignedFits<C>(recs: seq<Record<C>>)
    requires Count(recs).Some? && Aligned(recs)
    ensures !Overflows(Count(recs).value, recs)
  {
    PassesAgree(recs);
  }

  /** One record keeps every group's indices increasing and inside the triangle table. */
  lemma FillStepOrdered<C>(f: FillState, r: Record<C>)
    requires forall name :: OrderedBelow(ListOf(f, name), |f.tris|)
    ensures forall name :: OrderedBelow(ListOf(FillStep(f, r), name), |FillStep(f, r).tris|)
  {
    var f' := FillStep(f, r);
    forall name
      ensures OrderedBelow(ListOf(f', name), |f'.tris|)
    {
      if r.Face? && name == f.cur {
        assert ListOf(f', name) == ListOf(f, name) + Range(|f.tris|, FanSize(r.refs));
      } else {
        assert ListOf(f', name) == ListOf(f, name);
      }
    }
  }

  /** Each group's indices are increasing and name triangles already in the table. */
  lemma {:induction false} FillOrdered<C>(start: string, recs: seq<Record<C>>)
    ensures forall name :: OrderedBelow(ListOf(Filled(start, recs), name), |Filled(start, recs).tris|)
  {
    if recs != [] {
      var q := recs[..|recs| - 1];
      FillOrdered(start, q);
      FillStepOrdered(Filled(start, q), recs[|recs| - 1]);
    }
  }

  /** One record keeps the groups' lists a partition of the triangle table. */
  lemma FillStepPartitions<C>(f: FillState, r: Record<C>)
    requires forall name :: OrderedBelow(ListOf(f, name), |f.tris|)
    requires forall x :: 0 <= x < |f.tris| ==> Listed(f, x)
    requires forall x, a, b :: x in ListOf(f, a) && x in ListOf(f, b) ==> a == b
    ensures forall x :: 0 <= x < |FillStep(f, r).tris| ==> Listed(FillStep(f, r), x)
    ensures forall x, a, b :: x in ListOf(FillStep(f, r), a) && x in ListOf(FillStep(f, r), b) ==> a == b
  {
    var f' := FillStep(f, r);
    if r.Face? {
      var added := Range(|f.tris|, FanSize(r.refs));
      assert ListOf(f', f.cur) == ListOf(f, f.cur) + added;
      forall name | name != f.cur
        ensures ListOf(f', name) == ListOf(f, name)
      {
      }
      forall x | 0 <= x < |f'.tris|
        ensures Listed(f', x)
      {
        if x < |f.tris| {
          assert Listed(f, x);
          var name :| x in ListOf(f, name);
          assert x in ListOf(f', name);
        } else {
          assert added[x - |f.tris|] == x;
          assert x in ListOf(f', f.cur);
        }
      }
      forall x, a, b | x in ListOf(f', a) && x in ListOf(f', b)
        ensures a == b
      {
        // entries already present lie below |f.tris|, the added ones at or above it
        if x < |f.tris| {
          assert x !in added;
          assert x in ListOf(f, a) && x in ListOf(f, b);
        } else {
          assert OrderedBelow(ListOf(f, a), |f.tris|) && OrderedBelow(ListOf(f, b), |f.tris|);
          assert x !in ListOf(f, a) && x !in ListOf(f, b);
        }
      }
    } else {
      forall name
        ensures ListOf(f', name) == ListOf(f, name)
      {
      }
      forall x | 0 <= x < |f'.tris|
        ensures Listed(f', x)
      {
        assert Listed(f, x);
        var name :| x in ListOf(f, name);
        assert x in ListOf(f', name);
      }
    }
  }

  /**
   * The groups' index lists partition the triangle table: every triangle is
   * in some group's list, and in no two.
   */
  lemma {:induction false} FillPartitions<C>(start: string, recs: seq<Record<C>>)
    ensures forall x :: 0 <= x < |Filled(start, recs).tris| ==> Listed(Filled(start, recs), x)
    ensures forall x, a, b :: x in ListOf(Filled(start, recs), a) && x in ListOf(Filled(start, recs), b) ==> a == b
  {
    if recs != [] {
      var q := recs[..|recs| - 1];
      FillPartitions(start, q);
      FillOrdered(start, q);
      FillStepPartitions(Filled(start, q), recs[|recs| - 1]);
    }
  }

  /**
   * 1-based slots: the `v` record at position k of the stream is the
   * (1 + number of `v` records before it)-th position; likewise for `vn`
   * and `vt`.
   */
  lemma VertexRecordSlot<C>(recs: seq<Record<C>>, k: nat)
    requires k < |recs|
    ensures recs[k].Vertex? ==>
      |Positions(recs[..k])| < |Positions(recs)| && Positions(recs)[|Positions(recs[..k])|] == recs[k].pos
    ensures recs[k].Normal? ==>
      |Normals(recs[..k])| < |Normals(recs)| && Normals(recs)[|Normals(recs[..k])|] == recs[k].normal
    ensures recs[k].TexCoord? ==>
      |TexCoords(recs[..k])| < |TexCoords(recs)| && TexCoords(recs)[|TexCoords(recs[..k])|] == recs[k].tex
  {
    FillPrefix(recs, DefaultGroup, k + 1);
    var p := recs[..k + 1];
    assert p[..|p| - 1] == recs[..k];
  }

  /** A face whose references are in range yields triangles whose indices are in range. */
  lemma FanIn(g: Grammar, refs: FaceRefs, nv: nat, nt: nat, nn: nat)
    requires forall k :: 0 <= k < |refs| ==> RefIn(g, refs[k], nv, nt, nn)
    ensures forall j :: 0 <= j < |Fan(g, refs)| ==> TriangleIn(Fan(g, refs)[j], nv, nt, nn)
  {
    var p := Padded(refs);
    forall j | 0 <= j < |Fan(g, refs)|
      ensures TriangleIn(Fan(g, refs)[j], nv, nt, nn)
    {
      assert RefIn(g, p[0], nv, nt, nn) && RefIn(g, p[j + 1], nv, nt, nn) && RefIn(g, p[j + 2], nv, nt, nn);
      assert Fan(g, refs)[j] == Corners(g, Blank, p[0], p[j + 1], p[j + 2]);
    }
  }

  /**
   * When every face reference is in range of nv, nt and nn, so is every
   * index pass 2 writes into the triangle table.
   */
  lemma {:induction false} FilledInRange<C>(start: string, recs: seq<Record<C>>, nv: nat, nt: nat, nn: nat)
    requires RefsWithin(recs, nv, nt, nn)
    ensures forall x :: 0 <= x < |Filled(start, recs).tris| ==> TriangleIn(Filled(start, recs).tris[x], nv, nt, nn)
  {
    if recs != [] {
      var q, r := recs[..|recs| - 1], recs[|recs| - 1];
      assert forall i :: 0 <= i < |q| ==> q[i] == recs[i];
      FilledInRange(start, q, nv, nt, nn);
      if r.Face? {
        assert forall k :: 0 <= k < |r.refs| ==> RefIn(r.grammar, r.refs[k], nv, nt, nn);
        FanIn(r.grammar, r.refs, nv, nt, nn);
        var f := Filled(start, q);
        forall x | 0 <= x < |Filled(start, recs).tris|
          ensures TriangleIn(Filled(start, recs).tris[x], nv, nt, nn)
        {
          if x >= |f.tris| {
            assert Filled(start, recs).tris[x] == Fan(r.grammar, r.refs)[x - |f.tris|];
          }
        }
      }
    }
  }
}
