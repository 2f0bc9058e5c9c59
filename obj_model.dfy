/*
 * The loader itself: the model record with its list of groups, the group
 * lookup, the counting pass, the filling pass, and ReadOBJ, which runs the
 * first pass, allocates the arrays from its counts and runs the second.
 *
 * Each method is proved against the functions of ObjSpec: the state it
 * leaves is the one those functions describe for the same records.
 */
module ObjModel {
  import opened ObjRecords
  import opened ObjSpec

  /** A named group of triangles: one node of the model's group list. */
  class Group {
    const name: string
    var material: nat
    var numtriangles: nat
    var triangles: array?<nat>

    /** A new group as the group list receives it: no material, no triangles, no storage. */
    constructor (name: string)
      ensures this.name == name
      ensures material == 0 && numtriangles == 0 && triangles == null
    {
      this.name := name;
      material := 0;
      numtriangles := 0;
      triangles := null;
    }
  }

  /** Array a holds cs at the 1-based slots 1 .. |cs|, three values per slot. */
  ghost predicate Holds3<C>(a: array<C>, cs: seq<Coord3<C>>)
    reads a
  {
    && 3 * (|cs| + 1) <= a.Length
    && forall j :: 0 <= j < |cs| ==>
         a[3 * (j + 1)] == cs[j].x && a[3 * (j + 1) + 1] == cs[j].y && a[3 * (j + 1) + 2] == cs[j].z
  }

  /** Array a holds cs at the 1-based slots 1 .. |cs|, two values per slot. */
  ghost predicate Holds2<C>(a: array<C>, cs: seq<Coord2<C>>)
    reads a
  {
    && 2 * (|cs| + 1) <= a.Length
    && forall j :: 0 <= j < |cs| ==> a[2 * (j + 1)] == cs[j].x && a[2 * (j + 1) + 1] == cs[j].y
  }

  /**
   * Writes p into the three slots of a position or normal array that belong
   * to the next 1-based index after the coordinates cs already stored.
   */
  method Store3<C>(a: array<C>, slot: nat, p: Coord3<C>, ghost cs: seq<Coord3<C>>)
    requires Holds3(a, cs) && slot == |cs| + 1 && 3 * slot + 2 < a.Length
    modifies a
    ensures Holds3(a, cs + [p])
    ensures a[..3] == old(a[..3])
  {
    a[3 * slot] := p.x;
    a[3 * slot + 1] := p.y;
    a[3 * slot + 2] := p.z;
    ghost var cs' := cs + [p];
    forall j | 0 <= j < |cs'|
      ensures a[3 * (j + 1)] == cs'[j].x && a[3 * (j + 1) + 1] == cs'[j].y && a[3 * (j + 1) + 2] == cs'[j].z
    {
      if j < |cs| {
        assert cs'[j] == cs[j];
      }
    }
  }

  /**
   * Writes p into the two slots of the texcoord array that belong to the
   * next 1-based index after the texcoords cs already stored.
   */
  method Store2<C>(a: array<C>, slot: nat, p: Coord2<C>, ghost cs: seq<Coord2<C>>)
    requires Holds2(a, cs) && slot == |cs| + 1 && 2 * slot + 1 < a.Length
    modifies a
    ensures Holds2(a, cs + [p])
    ensures a[..2] == old(a[..2])
  {
    a[2 * slot] := p.x;
    a[2 * slot + 1] := p.y;
    ghost var cs' := cs + [p];
    forall j | 0 <= j < |cs'|
      ensures a[2 * (j + 1)] == cs'[j].x && a[2 * (j + 1) + 1] == cs'[j].y
    {
      if j < |cs| {
        assert cs'[j] == cs[j];
      }
    }
  }

  /** The first k values of a, the unused slot 0 of a coordinate array (empty when there is no such array). */
  ghost function Front(a: array?<real>, k: nat): seq<real>
    reads a
  {
    if a == null || a.Length < k then [] else a[..k]
  }

  /** The names of a sequence of groups (a group's name never changes). */
  function NamesOf(gs: seq<Group>): (ns: seq<string>)
    ensures |ns| == |gs|
    ensures forall k :: 0 <= k < |gs| ==> ns[k] == gs[k].name
  {
    seq(|gs|, k requires 0 <= k < |gs| => gs[k].name)
  }

  /** The materials of a sequence of groups, by position. */
  ghost function MaterialsOf(gs: seq<Group>): (ms: seq<nat>)
    reads gs
    ensures |ms| == |gs|
    ensures forall k :: 0 <= k < |gs| ==> ms[k] == gs[k].material
  {
    seq(|gs|, k requires 0 <= k < |gs| reads gs => gs[k].material)
  }

  /** Pass 1's state of each group: its running count, no storage yet, no material. */
  ghost predicate Counting(gs: seq<Group>, counts: map<string, nat>)
    reads gs
  {
    forall k :: 0 <= k < |gs| ==>
      gs[k].numtriangles == CountOf(counts, gs[k].name) && gs[k].triangles == null && gs[k].material == 0
  }

  /** A `g` record naming a group already in the list leaves pass 1's group state as it is. */
  lemma CountingFound(gs: seq<Group>, counts: map<string, nat>, name: string)
    requires Counting(gs, counts)
    requires name in NamesOf(gs)
    ensures Counting(gs, counts[name := CountOf(counts, name)])
  {
  }

  /** A `g` record naming a new group pushes it with the count zero pass 1 holds for it. */
  lemma CountingPushed(gs: seq<Group>, counts: map<string, nat>, g: Group)
    requires Counting(gs, counts)
    requires g.name !in NamesOf(gs) && CountOf(counts, g.name) == 0
    requires g.numtriangles == 0 && g.triangles == null && g.material == 0
    ensures Counting([g] + gs, counts[g.name := CountOf(counts, g.name)])
  {
    var gs', counts' := [g] + gs, counts[g.name := CountOf(counts, g.name)];
    forall k | 1 <= k < |gs'|
      ensures gs'[k].numtriangles == CountOf(counts', gs'[k].name)
    {
      assert gs'[k] == gs[k - 1];
      assert gs[k - 1].name in NamesOf(gs);
    }
  }

  /** A group after pass 1: storage sized to its count, emptied, no material. */
  ghost predicate Sized(g: Group, count: nat)
    reads g
  {
    g.triangles != null && g.triangles.Length == count && g.numtriangles == 0 && g.material == 0
  }

  /**
   * The table after a face's fan is written at its first blank slot, as a
   * sequence: the earlier triangles, then the fan, then blank slots.
   */
  lemma FanTable(g: Grammar, refs: FaceRefs, tris: seq<Triangle>, orig: seq<Triangle>, now: seq<Triangle>)
    requires |now| == |orig| && |tris| + FanSize(refs) <= |orig|
    requires orig[..|tris|] == tris
    requires forall x :: |tris| <= x < |orig| ==> orig[x] == Blank
    requires forall x :: |tris| <= x < |tris| + FanSize(refs) ==> now[x] == FanCorners(g, orig[x], refs, x - |tris|)
    requires forall x :: 0 <= x < |orig| && !(|tris| <= x < |tris| + FanSize(refs)) ==> now[x] == orig[x]
    ensures now[..|tris| + FanSize(refs)] == tris + Fan(g, refs)
    ensures forall x :: |tris| + FanSize(refs) <= x < |now| ==> now[x] == Blank
  {
    var want := tris + Fan(g, refs);
    forall x | 0 <= x < |want|
      ensures now[x] == want[x]
    {
      if x < |tris| {
        assert orig[..|tris|][x] == orig[x];
      }
    }
  }

  class Model {
    const pathname: string
    var mtllibname: Option<string>
    var numvertices: nat
    var vertices: array?<real>
    var numnormals: nat
    var normals: array?<real>
    var numtexcoords: nat
    var texcoords: array?<real>
    var numfacetnorms: nat
    var facetnorms: array?<real>
    var numtriangles: nat
    var triangles: array?<Triangle>
    var nummaterials: nat
    var numgroups: nat
    /** The group list, head first. */
    var groups: seq<Group>

    /** The model as ReadOBJ sets it up before the first pass: everything empty. */
    constructor (pathname: string)
      ensures this.pathname == pathname && mtllibname == None
      ensures numvertices == 0 && vertices == null
      ensures numnormals == 0 && normals == null
      ensures numtexcoords == 0 && texcoords == null
      ensures numfacetnorms == 0 && facetnorms == null
      ensures numtriangles == 0 && triangles == null
      ensures nummaterials == 0
      ensures numgroups == 0 && groups == []
    {
      this.pathname := pathname;
      mtllibname := None;
      numvertices := 0;
      vertices := null;
      numnormals := 0;
      normals := null;
      numtexcoords := 0;
      texcoords := null;
      numfacetnorms := 0;
      facetnorms := null;
      numtriangles := 0;
      triangles := null;
      nummaterials := 0;
      numgroups := 0;
      groups := [];
    }

    /** The group list has no two groups of one name, and numgroups is its length. */
    ghost predicate GroupsValid()
      reads this`numgroups, this`groups
    {
      numgroups == |groups| && Unique(NamesOf(groups))
    }

    /** The arrays of the groups' triangle indices. */
    ghost function Storage(): set<array?<nat>>
      reads this`groups, groups`triangles
    {
      set k | 0 <= k < |groups| :: groups[k].triangles
    }

    /**
     * Walks the group list from its head; the first group of that name, or
     * null when there is none.
     */
    method FindGroup(name: string) returns (g: Group?)
      ensures g == null <==> name !in NamesOf(groups)
      ensures g != null ==> g == groups[FirstIndex(NamesOf(groups), name)]
    {
      var k := 0;
      while k < |groups|
        invariant 0 <= k <= |groups|
        invariant forall j :: 0 <= j < k ==> groups[j].name != name
      {
        if groups[k].name == name {
          return groups[k];
        }
        k := k + 1;
      }
      return null;
    }

    /**
     * The group of that name; when there is none, a new empty group pushed
     * on the head of the list.
     */
    method AddGroup(name: string) returns (g: Group)
      requires GroupsValid()
      modifies this`groups, this`numgroups
      ensures GroupsValid()
      ensures NamesOf(groups) == AddName(NamesOf(old(groups)), name)
      ensures g.name == name && g in groups
      ensures name in NamesOf(old(groups)) ==>
        groups == old(groups) && numgroups == old(numgroups) && g == groups[FirstIndex(NamesOf(groups), name)]
      ensures name !in NamesOf(old(groups)) ==>
        && fresh(g) && groups == [g] + old(groups) && numgroups == old(numgroups) + 1
        && g.material == 0 && g.numtriangles == 0 && g.triangles == null
    {
      var found := FindGroup(name);
      if found != null {
        g := found;
      } else {
        g := new Group(name);
        AddNameKeeps(NamesOf(groups), name);
        groups := [g] + groups;
        numgroups := numgroups + 1;
        assert NamesOf(groups) == [name] + NamesOf(old(groups));
      }
    }

    /**
     * The count of one face: one triangle for its first three references
     * and one per further reference, added to the model's running total and
     * to the current group.
     */
    method CountFace(grp: Group, refs: FaceRefs, ntri: nat, ghost counts: map<string, nat>) returns (total: nat)
      requires Unique(NamesOf(groups)) && grp in groups
      requires Counting(groups, counts)
      modifies grp`numtriangles
      ensures total == ntri + FanSize(refs)
      ensures grp.numtriangles == old(grp.numtriangles) + FanSize(refs)
      ensures Counting(groups, counts[grp.name := CountOf(counts, grp.name) + FanSize(refs)])
    {
      total := ntri + 1;
      grp.numtriangles := grp.numtriangles + 1;
      var j := 3;
      while j < |refs|
        invariant 3 <= j <= |Padded(refs)|
        invariant total == ntri + (j - 2)
        invariant grp.numtriangles == old(grp.numtriangles) + (j - 2)
      {
        total := total + 1;
        grp.numtriangles := grp.numtriangles + 1;
        j := j + 1;
      }
      ghost var counts' := counts[grp.name := CountOf(counts, grp.name) + FanSize(refs)];
      forall k | 0 <= k < |groups|
        ensures groups[k].numtriangles == CountOf(counts', groups[k].name)
      {
        if groups[k] != grp {
          assert groups[k].name != grp.name;
        }
      }
    }

    /**
     * The end of pass 1: each group gets storage for as many indices as it
     * counted, and its count goes back to zero for pass 2.
     */
    method AllocateStorage(ghost counts: map<string, nat>)
      requires GroupsValid()
      requires Counting(groups, counts)
      modifies groups
      ensures forall k :: 0 <= k < |groups| ==> Sized(groups[k], CountOf(counts, groups[k].name))
      ensures groups == old(groups) && numgroups == old(numgroups) && mtllibname == old(mtllibname)
      ensures forall k :: 0 <= k < |groups| ==> fresh(groups[k].triangles)
      ensures StorageDistinct()
    {
      var k := 0;
      while k < |groups|
        invariant 0 <= k <= |groups|
        invariant groups == old(groups)
        invariant forall j :: 0 <= j < k ==> Sized(groups[j], CountOf(counts, groups[j].name))
        invariant forall j :: k <= j < |groups| ==>
          groups[j].numtriangles == CountOf(counts, groups[j].name)
          && groups[j].triangles == null && groups[j].material == 0
        invariant forall j :: 0 <= j < k ==> fresh(groups[j].triangles)
        invariant forall a, b :: 0 <= a < b < k ==> groups[a].triangles != groups[b].triangles
      {
        var g := groups[k];
        g.triangles := new nat[g.numtriangles];
        g.numtriangles := 0;
        k := k + 1;
      }
    }

    /**
     * Pass 1's running state agrees with the tally t: the four counters, the
     * group list, the current group, the material library (mtl0 until a
     * library is named) and every group's count.
     */
    ghost predicate Tallied(t: Tally, nv: nat, nn: nat, nt: nat, ntri: nat, grp: Group, mtl0: Option<string>)
      reads this, groups
    {
      && GroupsValid()
      && nv == t.numvertices && nn == t.numnormals && nt == t.numtexcoords && ntri == t.numtriangles
      && NamesOf(groups) == t.names && grp.name == t.cur && grp in groups
      && mtllibname == (if t.mtllib.Some? then t.mtllib else mtl0)
      && Counting(groups, t.counts)
    }

    /**
     * Pass 1 on one directive: a vertex, normal or texcoord is counted, a
     * material library is remembered, a group becomes current (created if
     * new), a face is counted into the current group; a `v` of unknown kind
     * is fatal. Everything else is skipped.
     */
    method CountRecord(r: Record<real>, grp: Group, nv: nat, nn: nat, nt: nat, ntri: nat,
                       ghost t: Tally, ghost mtl0: Option<string>)
      returns (ok: bool, grp': Group, nv': nat, nn': nat, nt': nat, ntri': nat)
      requires Consistent(t)
      requires Tallied(t, nv, nn, nt, ntri, grp, mtl0)
      modifies this`groups, this`numgroups, this`mtllibname
      modifies set k | 0 <= k < |groups| :: groups[k]
      ensures ok <==> CountStep(t, r).Some?
      ensures !ok ==> groups == old(groups) && numgroups == old(numgroups)
      ensures ok ==> Tallied(CountStep(t, r).value, nv', nn', nt', ntri', grp', mtl0)
      ensures forall k :: 0 <= k < |groups| ==> groups[k] in old(groups) || fresh(groups[k])
    {
      ok, grp', nv', nn', nt', ntri' := true, grp, nv, nn, nt, ntri;
      match r {
      case Vertex(_) =>
        nv' := nv + 1;
      case Normal(_) =>
        nn' := nn + 1;
      case TexCoord(_) =>
        nt' := nt + 1;
      case BadVertexKind =>
        ok := false;
      case MtlLib(file) =>
        mtllibname := Some(file);
      case GroupDir(name) =>
        ghost var gs := groups;
        grp' := AddGroup(name);
        if name in NamesOf(gs) {
          CountingFound(gs, t.counts, name);
        } else {
          CountingPushed(gs, t.counts, grp');
        }
      case Face(_, refs) =>
        ntri' := CountFace(grp, refs, ntri, t.counts);
      case Comment =>
      case UseMtl =>
      case Unknown =>
      }
    }

    /**
     * The state pass 1 leaves for its tally t: the four totals, the group
     * list, and each group with empty storage sized by its count (each
     * group its own array), no material and no triangles yet.
     */
    ghost predicate Counted(t: Tally)
      reads this`groups, this`numgroups, this`numvertices, this`numnormals, this`numtexcoords, this`numtriangles
      reads groups
    {
      && GroupsValid()
      && numvertices == t.numvertices && numnormals == t.numnormals
      && numtexcoords == t.numtexcoords && numtriangles == t.numtriangles
      && NamesOf(groups) == t.names
      && (forall k :: 0 <= k < |groups| ==> Sized(groups[k], CountOf(t.counts, groups[k].name)))
      && StorageDistinct()
    }

    /**
     * One step of pass 1's loop: CountRecord on record i, which extends
     * the tally of the records before it by that record, or fails, and
     * then the records as a whole are fatal.
     */
    method CountAt(recs: seq<Record<real>>, i: nat, grp: Group, nv: nat, nn: nat, nt: nat, ntri: nat, ghost mtl0: Option<string>)
      returns (ok: bool, grp': Group, nv': nat, nn': nat, nt': nat, ntri': nat)
      requires i < |recs| && Count(recs[..i]).Some?
      requires Tallied(Count(recs[..i]).value, nv, nn, nt, ntri, grp, mtl0)
      modifies this`groups, this`numgroups, this`mtllibname
      modifies set k | 0 <= k < |groups| :: groups[k]
      ensures GroupsValid()
      ensures ok ==> Count(recs[..i + 1]).Some?
      ensures ok ==> Tallied(Count(recs[..i + 1]).value, nv', nn', nt', ntri', grp', mtl0)
      ensures !ok ==> Count(recs).None?
      ensures forall k :: 0 <= k < |groups| ==> groups[k] in old(groups) || fresh(groups[k])
    {
      ghost var t := Count(recs[..i]).value;
      CountNext(recs, i);
      CountConsistent(recs[..i]);
      ok, grp', nv', nn', nt', ntri' := CountRecord(recs[i], grp, nv, nn, nt, ntri, t, mtl0);
      if !ok {
        CountFailureSticks(recs, i + 1);
      }
    }

    /**
     * The loop of pass 1: CountRecord on each record in turn, from the
     * state after "default" was created, until the records end or one of
     * them is fatal.
     */
    method CountAll(recs: seq<Record<real>>, grp: Group, ghost mtl0: Option<string>)
      returns (ok: bool, grp': Group, nv: nat, nn: nat, nt: nat, ntri: nat)
      requires Tallied(Start, 0, 0, 0, 0, grp, mtl0)
      modifies this`groups, this`numgroups, this`mtllibname
      modifies set k | 0 <= k < |groups| :: groups[k]
      ensures GroupsValid() && (ok <==> Count(recs).Some?)
      ensures ok ==> Tallied(Count(recs).value, nv, nn, nt, ntri, grp', mtl0)
      ensures forall k :: 0 <= k < |groups| ==> groups[k] in old(groups) || fresh(groups[k])
    {
      grp' := grp;
      nv, nn, nt, ntri := 0, 0, 0, 0;
      assert recs[..0] == [];
      var i := 0;
      while i < |recs|
        invariant 0 <= i <= |recs|
        invariant Count(recs[..i]).Some?
        invariant Tallied(Count(recs[..i]).value, nv, nn, nt, ntri, grp', mtl0)
        invariant forall k :: 0 <= k < |groups| ==> groups[k] in old(groups) || fresh(groups[k])
      {
        ok, grp', nv, nn, nt, ntri := CountAt(recs, i, grp', nv, nn, nt, ntri, mtl0);
        if !ok {
          return;
        }
        i := i + 1;
      }
      assert recs[..i] == recs;
      ok := true;
    }

    /**
     * Pass 1: counts vertices, normals, texcoords and triangles, builds the
     * group list (starting with "default") with each group's triangle count,
     * remembers the material library, then gives each group storage for its
     * count and resets the count. Fails on a `v` record of unknown kind.
     */
    method FirstPass(recs: seq<Record<real>>) returns (ok: bool)
      requires groups == [] && numgroups == 0
      modifies this`groups, this`numgroups, this`mtllibname
      modifies this`numvertices, this`numnormals, this`numtexcoords, this`numtriangles
      ensures GroupsValid()
      ensures ok <==> Count(recs).Some?
      ensures ok ==> Counted(Count(recs).value)
      ensures ok ==> mtllibname == (if Count(recs).value.mtllib.Some? then Count(recs).value.mtllib else old(mtllibname))
      ensures ok ==> forall k :: 0 <= k < |groups| ==> fresh(groups[k]) && fresh(groups[k].triangles)
    {
      var grp := AddGroup(DefaultGroup);
      assert NamesOf(groups) == [DefaultGroup] && fresh(groups[0]);
      var nv, nn, nt, ntri;
      ok, grp, nv, nn, nt, ntri := CountAll(recs, grp, old(mtllibname));
      if !ok {
        return;
      }
      assert forall k :: 0 <= k < |groups| ==> fresh(groups[k]);
      ghost var t := Count(recs).value;
      numvertices, numnormals, numtexcoords, numtriangles := nv, nn, nt, ntri;
      AllocateStorage(t.counts);
    }

    /**
     * Appends triangle index x to a group's list. The list's storage was
     * sized by pass 1; appending to a full list fails.
     */
    static method Append(grp: Group, x: nat) returns (ok: bool)
      requires grp.triangles != null && grp.numtriangles <= grp.triangles.Length
      modifies grp`numtriangles, grp.triangles
      ensures ok <==> old(grp.numtriangles) < grp.triangles.Length
      ensures ok ==> grp.numtriangles == old(grp.numtriangles) + 1
      ensures ok ==> grp.triangles[..grp.numtriangles] == old(grp.triangles[..grp.numtriangles]) + [x]
    {
      if grp.numtriangles == grp.triangles.Length {
        return false;
      }
      grp.triangles[grp.numtriangles] := x;
      grp.numtriangles := grp.numtriangles + 1;
      ok := true;
    }

    /**
     * Slots first .. first + n - 1 of the table hold the first n triangles of
     * the fan over a face, each written over the slot's content in orig;
     * every other slot is as in orig.
     */
    ghost predicate FanWritten(g: Grammar, refs: FaceRefs, first: nat, n: nat, orig: seq<Triangle>)
      reads this, triangles
    {
      && triangles != null && |orig| == triangles.Length
      && n <= FanSize(refs) && first + n <= triangles.Length
      && (forall x :: first <= x < first + n ==> triangles[x] == FanCorners(g, orig[x], refs, x - first))
      && (forall x :: 0 <= x < |orig| && !(first <= x < first + n) ==> triangles[x] == orig[x])
    }

    /**
     * One more triangle of a fan, for the reference at position j >= 3: it
     * shares the previous triangle's first and last corners and goes to the
     * next slot.
     */
    method WriteNext(g: Grammar, refs: FaceRefs, first: nat, j: nat, ghost orig: seq<Triangle>)
      requires 3 <= j < |refs| && first + FanSize(refs) <= |orig|
      requires FanWritten(g, refs, first, j - 2, orig)
      modifies triangles
      ensures FanWritten(g, refs, first, j - 1, orig)
    {
      var t := first + (j - 2);
      assert triangles[t - 1] == FanCorners(g, orig[t - 1], refs, j - 3);
      assert triangles[t] == orig[t];
      NextInFanIsFan(g, orig[t], orig[t - 1], refs, j - 3);
      triangles[t] := NextInFan(g, triangles[t], triangles[t - 1], refs[j]);
      forall x | 0 <= x < |orig| && x != t
        ensures triangles[x] == old(triangles[x])
      {
      }
    }

    /**
     * The triangle of a fan for the reference at position j >= 3, written
     * to its slot and appended to the group's list after the triangles
     * of the references before it.
     */
    method StoreNext(g: Grammar, refs: FaceRefs, grp: Group, first: nat, j: nat,
                     ghost orig: seq<Triangle>, ghost listed: seq<nat>)
      returns (ok: bool)
      requires 3 <= j < |refs| && first + FanSize(refs) <= |orig|
      requires FanWritten(g, refs, first, j - 2, orig) && grp.triangles != null
      requires grp.numtriangles == |listed| + (j - 2) <= grp.triangles.Length
      requires grp.triangles[..grp.numtriangles] == listed + Range(first, j - 2)
      modifies triangles, grp`numtriangles, grp.triangles
      ensures ok <==> |listed| + (j - 2) < grp.triangles.Length
      ensures ok ==> FanWritten(g, refs, first, j - 1, orig)
      ensures ok ==> grp.numtriangles == |listed| + (j - 1)
      ensures ok ==> grp.triangles[..grp.numtriangles] == listed + Range(first, j - 1)
    {
      WriteNext(g, refs, first, j, orig);
      ok := Append(grp, first + (j - 2));
      if ok {
        assert Range(first, j - 1) == Range(first, j - 2) + [first + (j - 2)];
        assert listed + Range(first, j - 1) == (listed + Range(first, j - 2)) + [first + (j - 2)];
      }
    }

    /**
     * Pass 2 on one face: its first triangle from the first three
     * references, then one more per further reference, each sharing the
     * first corner and the previous triangle's last. Each triangle goes to
     * the next slot of the table, from `first` on, and its index is
     * appended to the current group's list. Writing past the end of that
     * list (more triangles than pass 1 counted for the group) fails.
     */
    method StoreFace(g: Grammar, refs: FaceRefs, grp: Group, first: nat) returns (ok: bool)
      requires triangles != null && grp.triangles != null
      requires first + FanSize(refs) <= triangles.Length
      requires grp.numtriangles <= grp.triangles.Length
      modifies triangles, grp`numtriangles, grp.triangles
      ensures ok <==> old(grp.numtriangles) + FanSize(refs) <= grp.triangles.Length
      ensures ok ==> FanWritten(g, refs, first, FanSize(refs), old(triangles[..]))
      ensures ok ==> grp.numtriangles == old(grp.numtriangles) + FanSize(refs)
      ensures ok ==> grp.triangles[..grp.numtriangles] == old(grp.triangles[..grp.numtriangles]) + Range(first, FanSize(refs))
    {
      ghost var orig := triangles[..];
      ghost var listed := grp.triangles[..grp.numtriangles];
      var p := Padded(refs);
      triangles[first] := Corners(g, triangles[first], p[0], p[1], p[2]);
      assert triangles[first] == FanCorners(g, orig[first], refs, 0);
      ok := Append(grp, first);
      if !ok {
        return;
      }
      assert Range(first, 1) == [first];
      var j := 3;
      while j < |refs|
        invariant 3 <= j <= |Padded(refs)|
        invariant FanWritten(g, refs, first, j - 2, orig)
        invariant grp.numtriangles == |listed| + (j - 2) <= grp.triangles.Length
        invariant grp.triangles[..grp.numtriangles] == listed + Range(first, j - 2)
      {
        ok := StoreNext(g, refs, grp, first, j, orig, listed);
        if !ok {
          return;
        }
        j := j + 1;
      }
      ok := true;
    }

    /**
     * Pass 2 on a face record: StoreFace, seen from pass 2's whole state.
     * The face's fan follows the triangles already in the table, its
     * indices follow the current group's list, and nothing else changes.
     */
    method FillFace(r: Record<real>, grp: Group, vc: nat, nc: nat, tc: nat, tcount: nat, ghost done: Progress<real>)
      returns (ok: bool)
      requires r.Face? && Stored(done, grp, vc, nc, tc, tcount)
      requires tcount + FanSize(r.refs) <= triangles.Length
      modifies triangles, grp`numtriangles, grp.triangles
      ensures ok <==> old(grp.numtriangles) + FanSize(r.refs) <= grp.triangles.Length
      ensures ok ==> Stored(Advance(done, r), grp, vc, nc, tc, tcount + FanSize(r.refs))
    {
      var g, refs := r.grammar, r.refs;
      ghost var f := done.fill;
      ghost var orig := triangles[..];
      ok := StoreFaceListed(g, refs, grp, tcount, f.lists);
      if ok {
        FanTable(g, refs, f.tris, orig, triangles[..]);
        ghost var f' := FillStep(f, r);
        assert f' == FillState(f.tris + Fan(g, refs), f.lists[f.cur := ListIn(f.lists, f.cur) + Range(tcount, FanSize(refs))], f.cur);
        assert Advance(done, r) == done.(fill := f');
        assert CoordsStored(done.ps, done.ns, done.ts, vc, nc, tc);
      }
    }

    /**
     * StoreFace, seen from the groups' lists: the face's indices are
     * appended to the list of group grp, and every other list stays.
     */
    method StoreFaceListed(g: Grammar, refs: FaceRefs, grp: Group, first: nat, ghost lists: map<string, seq<nat>>)
      returns (ok: bool)
      requires triangles != null && first + FanSize(refs) <= triangles.Length
      requires GroupsValid() && StorageDistinct() && grp in groups && ListsHold(lists)
      modifies triangles, grp`numtriangles, grp.triangles
      ensures ok <==> old(grp.numtriangles) + FanSize(refs) <= grp.triangles.Length
      ensures ok ==> FanWritten(g, refs, first, FanSize(refs), old(triangles[..]))
      ensures ok ==> ListsHold(lists[grp.name := ListIn(lists, grp.name) + Range(first, FanSize(refs))])
    {
      ok := StoreFace(g, refs, grp, first);
      if ok {
        ghost var lists' := lists[grp.name := ListIn(lists, grp.name) + Range(first, FanSize(refs))];
        forall k | 0 <= k < |groups|
          ensures groups[k].triangles[..groups[k].numtriangles] == ListIn(lists', groups[k].name)
        {
          assert old(groups[k].triangles[..groups[k].numtriangles]) == ListIn(lists, groups[k].name);
          if groups[k] != grp {
            assert groups[k].name != grp.name;
            assert groups[k].triangles != grp.triangles;
          }
        }
      }
    }

    /** The groups' storage arrays are pairwise distinct. */
    ghost predicate StorageDistinct()
      reads this`groups, groups`triangles
    {
      forall a, b :: 0 <= a < b < |groups| ==> groups[a].triangles != groups[b].triangles
    }

    /** No two of the coordinate arrays are the same array. */
    ghost predicate CoordsDistinct()
      reads this`vertices, this`normals, this`texcoords
    {
      && (normals != null ==> normals != vertices)
      && (texcoords != null ==> texcoords != vertices && texcoords != normals)
    }

    /** The triangle table holds tris in its first slots and is blank after them. */
    ghost predicate TableHolds(tris: seq<Triangle>)
      reads this`triangles, triangles
    {
      && triangles != null && |tris| <= triangles.Length
      && triangles[..|tris|] == tris
      && forall x :: |tris| <= x < triangles.Length ==> triangles[x] == Blank
    }

    /** Every group's list, as far as appended, is its entry in lists. */
    ghost predicate ListsHold(lists: map<string, seq<nat>>)
      reads this`groups, groups`triangles, groups`numtriangles, Storage()
    {
      && (forall k :: 0 <= k < |groups| ==>
            groups[k].triangles != null && groups[k].numtriangles <= groups[k].triangles.Length)
      && forall k {:trigger ListIn(lists, groups[k].name)} :: 0 <= k < |groups| ==>
           groups[k].triangles[..groups[k].numtriangles] == ListIn(lists, groups[k].name)
    }

    /**
     * The coordinates stored so far: positions, normals and texcoords each
     * at the 1-based slots below their cursor (one past the last slot
     * written).
     */
    ghost predicate CoordsStored(ps: seq<Coord3<real>>, ns: seq<Coord3<real>>, ts: seq<Coord2<real>>,
                                 vc: nat, nc: nat, tc: nat)
      reads this`vertices, this`normals, this`texcoords, vertices, normals, texcoords
    {
      && CoordsDistinct() && vertices != null
      && vc == |ps| + 1 && nc == |ns| + 1 && tc == |ts| + 1
      && Holds3(vertices, ps)
      && (normals != null ==> Holds3(normals, ns))
      && (texcoords != null ==> Holds2(texcoords, ts))
    }

    /**
     * The triangles stored so far: the table filled with tris up to the next
     * free slot and blank after it, and each group's list as appended so far.
     */
    ghost predicate TrianglesStored(tris: seq<Triangle>, lists: map<string, seq<nat>>, tcount: nat)
      reads this`numgroups, this`groups, this`triangles, groups`triangles, groups`numtriangles
      reads triangles, Storage()
    {
      && GroupsValid() && StorageDistinct()
      && tcount == |tris| && TableHolds(tris)
      && ListsHold(lists)
    }

    /**
     * Pass 2's state holds the results done: their coordinates at the
     * slots below the cursors, their triangles in the table and the
     * groups' lists, and their current group.
     */
    ghost predicate Stored(done: Progress<real>, grp: Group, vc: nat, nc: nat, tc: nat, tcount: nat)
      reads this`vertices, this`normals, this`texcoords, vertices, normals, texcoords
      reads this`numgroups, this`groups, this`triangles, groups`triangles, groups`numtriangles
      reads triangles, Storage()
    {
      && CoordsStored(done.ps, done.ns, done.ts, vc, nc, tc)
      && grp in groups && grp.name == done.fill.cur
      && TrianglesStored(done.fill.tris, done.fill.lists, tcount)
    }

    /** The unused slot 0 of the vertex, normal and texcoord arrays. */
    ghost function Fronts(): seq<seq<real>>
      reads this`vertices, this`normals, this`texcoords, vertices, normals, texcoords
    {
      [Front(vertices, 3), Front(normals, 3), Front(texcoords, 2)]
    }

    /** Pass 2 on a `v` record: the position goes to the vertex cursor's slot. */
    method FillVertex(r: Record<real>, grp: Group, vc: nat, nc: nat, tc: nat, tcount: nat, ghost done: Progress<real>)
      requires r.Vertex? && Stored(done, grp, vc, nc, tc, tcount)
      requires 3 * (vc + 1) <= vertices.Length
      modifies vertices
      ensures Stored(Advance(done, r), grp, vc + 1, nc, tc, tcount)
      ensures Fronts() == old(Fronts())
    {
      Store3(vertices, vc, r.pos, done.ps);
    }

    /** Pass 2 on a `vn` record: the normal goes to the normal cursor's slot. */
    method FillNormal(r: Record<real>, grp: Group, vc: nat, nc: nat, tc: nat, tcount: nat, ghost done: Progress<real>)
      requires r.Normal? && Stored(done, grp, vc, nc, tc, tcount)
      requires normals != null && 3 * (nc + 1) <= normals.Length
      modifies normals
      ensures Stored(Advance(done, r), grp, vc, nc + 1, tc, tcount)
      ensures Fronts() == old(Fronts())
    {
      Store3(normals, nc, r.normal, done.ns);
    }

    /** Pass 2 on a `vt` record: the texcoord goes to the texcoord cursor's slot. */
    method FillTexCoord(r: Record<real>, grp: Group, vc: nat, nc: nat, tc: nat, tcount: nat, ghost done: Progress<real>)
      requires r.TexCoord? && Stored(done, grp, vc, nc, tc, tcount)
      requires texcoords != null && 2 * (tc + 1) <= texcoords.Length
      modifies texcoords
      ensures Stored(Advance(done, r), grp, vc, nc, tc + 1, tcount)
      ensures Fronts() == old(Fronts())
    {
      Store2(texcoords, tc, r.tex, done.ts);
    }

    /**
     * Pass 2 on a `g` record: the group, which pass 1 created, becomes
     * current and takes the current material.
     */
    method FillGroup(r: Record<real>, material: nat, grp: Group, vc: nat, nc: nat, tc: nat, tcount: nat,
                     ghost done: Progress<real>, ghost before: seq<nat>)
      returns (grp': Group)
      requires r.GroupDir? && Stored(done, grp, vc, nc, tc, tcount)
      requires r.name in NamesOf(groups) && MaterialsAfter(done.named, material, before)
      modifies this`groups, this`numgroups, groups`material
      ensures groups == old(groups) && numgroups == old(numgroups)
      ensures Stored(Advance(done, r), grp', vc, nc, tc, tcount)
      ensures MaterialsAfter(Advance(done, r).named, material, before)
    {
      grp' := SwitchGroup(r, grp, vc, nc, tc, tcount, done);
      Paint(grp', material, done.named, before);
    }

    /** The group a `g` record names becomes current. */
    method SwitchGroup(r: Record<real>, grp: Group, vc: nat, nc: nat, tc: nat, tcount: nat, ghost done: Progress<real>)
      returns (grp': Group)
      requires r.GroupDir? && Stored(done, grp, vc, nc, tc, tcount) && r.name in NamesOf(groups)
      modifies this`groups, this`numgroups
      ensures groups == old(groups) && numgroups == old(numgroups)
      ensures Stored(Advance(done, r), grp', vc, nc, tc, tcount) && grp'.name == r.name
    {
      grp' := LookupGroup(r.name);
    }

    /** g, one of the groups, takes the current material. */
    method Paint(g: Group, material: nat, ghost named: set<string>, ghost before: seq<nat>)
      requires g in groups && Unique(NamesOf(groups)) && MaterialsAfter(named, material, before)
      modifies g`material
      ensures MaterialsAfter(named + {g.name}, material, before)
    {
      g.material := material;
      forall k | 0 <= k < |groups|
        ensures groups[k].material == if groups[k].name in named + {g.name} then material else before[k]
      {
        if groups[k].name == g.name {
          var j :| 0 <= j < |groups| && groups[j] == g;
          assert NamesOf(groups)[j] == NamesOf(groups)[k];
        }
      }
    }

    /**
     * AddGroup as pass 2 calls it: pass 1 created every group a `g` record
     * names, so the call finds the group and leaves the list as it is.
     */
    method LookupGroup(name: string) returns (g: Group)
      requires GroupsValid() && name in NamesOf(groups)
      modifies this`groups, this`numgroups
      ensures groups == old(groups) && numgroups == old(numgroups)
      ensures g in groups && g.name == name
    {
      g := AddGroup(name);
    }

    /**
     * Pass 2 on a directive that does not involve groups or faces: a vertex,
     * normal or texcoord is stored at its cursor; anything else, a `v` of
     * unknown kind included, is skipped.
     */
    method FillCoords(r: Record<real>, grp: Group, vc: nat, nc: nat, tc: nat, tcount: nat, ghost done: Progress<real>)
      returns (vc': nat, nc': nat, tc': nat)
      requires !r.GroupDir? && !r.Face? && Stored(done, grp, vc, nc, tc, tcount)
      requires r.Vertex? ==> 3 * (vc + 1) <= vertices.Length
      requires r.Normal? ==> normals != null && 3 * (nc + 1) <= normals.Length
      requires r.TexCoord? ==> texcoords != null && 2 * (tc + 1) <= texcoords.Length
      modifies vertices, normals, texcoords
      ensures Stored(Advance(done, r), grp, vc', nc', tc', tcount)
      ensures Fronts() == old(Fronts())
    {
      vc', nc', tc' := vc, nc, tc;
      match r {
      case Vertex(_) =>
        FillVertex(r, grp, vc, nc, tc, tcount, done);
        vc' := vc + 1;
      case Normal(_) =>
        FillNormal(r, grp, vc, nc, tc, tcount, done);
        nc' := nc + 1;
      case TexCoord(_) =>
        FillTexCoord(r, grp, vc, nc, tc, tcount, done);
        tc' := tc + 1;
      case _ =>
      }
    }

    /**
     * Pass 2 on one directive: a vertex, normal or texcoord is stored at
     * its cursor, a group becomes current and gets the current material, a
     * face is triangulated into the table and the current group. Everything
     * else, a `v` of unknown kind included, is skipped.
     */
    method FillRecord(r: Record<real>, grp: Group, vc: nat, nc: nat, tc: nat, tcount: nat, material: nat,
                      ghost done: Progress<real>, ghost before: seq<nat>)
      returns (ok: bool, grp': Group, vc': nat, nc': nat, tc': nat, tcount': nat)
      requires Stored(done, grp, vc, nc, tc, tcount) && MaterialsAfter(done.named, material, before)
      requires r.GroupDir? ==> r.name in NamesOf(groups)
      requires r.Vertex? ==> 3 * (vc + 1) <= vertices.Length
      requires r.Normal? ==> normals != null && 3 * (nc + 1) <= normals.Length
      requires r.TexCoord? ==> texcoords != null && 2 * (tc + 1) <= texcoords.Length
      requires r.Face? ==> tcount + FanSize(r.refs) <= triangles.Length
      modifies this`groups, this`numgroups, vertices, normals, texcoords, triangles
      modifies groups`material
      modifies grp`numtriangles, grp.triangles
      ensures groups == old(groups) && numgroups == old(numgroups)
      ensures ok <==> !(r.Face? && old(grp.numtriangles) + FanSize(r.refs) > grp.triangles.Length)
      ensures ok ==> Stored(Advance(done, r), grp', vc', nc', tc', tcount')
      ensures MaterialsAfter(Advance(done, r).named, material, before)
      ensures vertices == old(vertices) && normals == old(normals)
      ensures texcoords == old(texcoords) && triangles == old(triangles)
      ensures Fronts() == old(Fronts())
    {
      ok, grp', vc', nc', tc', tcount' := true, grp, vc, nc, tc, tcount;
      if r.GroupDir? {
        grp' := FillGroup(r, material, grp, vc, nc, tc, tcount, done, before);
      } else if r.Face? {
        ok := FillFace(r, grp, vc, nc, tc, tcount, done);
        tcount' := tcount + FanSize(r.refs);
      } else {
        vc', nc', tc' := FillCoords(r, grp, vc, nc, tc, tcount, done);
      }
    }

    /**
     * The room pass 2 needs for the records, as pass 1's counts provide it:
     * the coordinate arrays have a slot for each coordinate (the normal and
     * texcoord arrays exist when there are any); the triangle table has a
     * slot for each triangle pass 2 makes from the head group on.
     */
    ghost predicate Room(np: nat, nn: nat, nt: nat, ntris: nat)
      reads this`vertices, this`normals, this`texcoords, this`triangles
    {
      && vertices != null && 3 * (np + 1) <= vertices.Length
      && (nn > 0 ==> normals != null)
      && (normals != null ==> 3 * (nn + 1) <= normals.Length)
      && (nt > 0 ==> texcoords != null)
      && (texcoords != null ==> 2 * (nt + 1) <= texcoords.Length)
      && triangles != null && ntris <= triangles.Length
    }

    /**
     * The state pass 2 starts from, as ReadOBJ leaves it after pass 1 and
     * the allocations: a non-empty group list of unique names, each group
     * with its own emptied storage and every `g` record naming one of them;
     * coordinate arrays, each its own array; a blank triangle table; and
     * room for the records.
     */
    ghost predicate ReadyFor(recs: seq<Record<real>>)
      reads this, groups, triangles, Storage()
    {
      && GroupsValid() && groups != [] && StorageDistinct() && CoordsDistinct()
      && (forall k :: 0 <= k < |groups| ==> groups[k].triangles != null && groups[k].numtriangles == 0)
      && GroupDirsIn(recs, NamesOf(groups))
      && Room(|Positions(recs)|, |Normals(recs)|, |TexCoords(recs)|, |Filled(groups[0].name, recs).tris|)
      && triangles != null && (forall x :: 0 <= x < triangles.Length ==> triangles[x] == Blank)
    }

    /**
     * Every group whose name is in named has the material, every other
     * group the material it had before pass 2 (`before`, by position).
     */
    ghost predicate MaterialsAfter(named: set<string>, material: nat, before: seq<nat>)
      reads this`groups, groups`material
    {
      && |before| == |groups|
      && forall k :: 0 <= k < |groups| ==>
           groups[k].material == if groups[k].name in named then material else before[k]
    }

    /**
     * Pass 2's state part way through the records: it holds the results
     * done, the groups they name have the current material, and there is
     * room for the results total of all the records.
     */
    ghost predicate Filling(total: Progress<real>, done: Progress<real>, grp: Group, vc: nat, nc: nat, tc: nat, tcount: nat,
                            material: nat, before: seq<nat>)
      reads this, groups, triangles, Storage(), vertices, normals, texcoords
    {
      && Room(|total.ps|, |total.ns|, |total.ts|, |total.fill.tris|)
      && Stored(done, grp, vc, nc, tc, tcount)
      && MaterialsAfter(done.named, material, before)
    }

    /**
     * One step of pass 2's loop: FillRecord on record i, which extends the
     * results of the records before it by that record, or fails because
     * the current group's list has outgrown its storage, which is then too
     * small for the group's list over all the records.
     */
    method FillAt(recs: seq<Record<real>>, i: nat, grp: Group, vc: nat, nc: nat, tc: nat, tcount: nat, material: nat,
                  ghost head: string, ghost before: seq<nat>)
      returns (ok: bool, grp': Group, vc': nat, nc': nat, tc': nat, tcount': nat)
      requires i < |recs| && GroupDirsIn(recs, NamesOf(groups))
      requires Filling(ProgressOf(head, recs), ProgressOf(head, recs[..i]), grp, vc, nc, tc, tcount, material, before)
      modifies this`groups, this`numgroups, vertices, normals, texcoords, triangles
      modifies groups`material
      modifies grp`numtriangles, grp.triangles
      ensures groups == old(groups) && numgroups == old(numgroups)
      ensures ok ==> Filling(ProgressOf(head, recs), ProgressOf(head, recs[..i + 1]), grp', vc', nc', tc', tcount', material, before)
      ensures Fronts() == old(Fronts())
      ensures !ok ==> exists k :: 0 <= k < |groups| && groups[k].triangles != null && |ListOf(Filled(head, recs), groups[k].name)| > groups[k].triangles.Length
    {
      ghost var total := ProgressOf(head, recs);
      ghost var done := ProgressOf(head, recs[..i]);
      NextFits(recs, head, i);
      ghost var listed := grp.numtriangles;
      ok, grp', vc', nc', tc', tcount' := FillRecord(recs[i], grp, vc, nc, tc, tcount, material, done, before);
      if !ok {
        var k :| 0 <= k < |groups| && groups[k] == grp;
        assert |ListOf(total.fill, groups[k].name)| >= listed + FanSize(recs[i].refs);
      }
    }

    /**
     * The loop of pass 2: FillAt on each record in turn, from the state
     * before the first record, until the records end or a group's list
     * outgrows its storage.
     */
    method FillAll(recs: seq<Record<real>>, grp: Group, material: nat, ghost head: string, ghost before: seq<nat>)
      returns (ok: bool, grp': Group, vc: nat, nc: nat, tc: nat, tcount: nat)
      requires GroupDirsIn(recs, NamesOf(groups))
      requires Filling(ProgressOf(head, recs), ProgressOf(head, []), grp, 1, 1, 1, 0, material, before)
      modifies this`groups, this`numgroups, vertices, normals, texcoords, triangles
      modifies groups`material
      modifies groups`numtriangles, Storage()
      ensures groups == old(groups) && numgroups == old(numgroups)
      ensures ok ==> Filling(ProgressOf(head, recs), ProgressOf(head, recs), grp', vc, nc, tc, tcount, material, before)
      ensures Fronts() == old(Fronts())
      ensures !ok ==> exists k :: 0 <= k < |groups| && groups[k].triangles != null && |ListOf(Filled(head, recs), groups[k].name)| > groups[k].triangles.Length
    {
      assert recs[..0] == [];
      grp' := grp;
      vc, nc, tc, tcount := 1, 1, 1, 0;
      var i := 0;
      ok := true;
      while ok && i < |recs|
        invariant groups == old(groups) && numgroups == old(numgroups) && i <= |recs|
        invariant Fronts() == old(Fronts())
        invariant ok ==> Filling(ProgressOf(head, recs), ProgressOf(head, recs[..i]), grp', vc, nc, tc, tcount, material, before)
        invariant !ok ==> exists k :: 0 <= k < |groups| && groups[k].triangles != null && |ListOf(Filled(head, recs), groups[k].name)| > groups[k].triangles.Length
      {
        ok, grp', vc, nc, tc, tcount := FillAt(recs, i, grp', vc, nc, tc, tcount, material, head, before);
        i := i + 1;
      }
      if ok {
        assert recs[..i] == recs;
      }
    }

    /**
     * ReadOBJ's allocations between the passes, from pass 1's counts: the
     * vertex array and the triangle table always, the normal and texcoord
     * arrays only when there are normals or texcoords. Each coordinate
     * array has one unused three- (or two-) value slot in front, for the
     * 1-based indices; every slot of the table starts blank.
     */
    method AllocateArrays()
      requires vertices == null && normals == null && texcoords == null && triangles == null
      modifies this`vertices, this`normals, this`texcoords, this`triangles
      ensures CoordsDistinct()
      ensures fresh(vertices) && vertices.Length == 3 * (numvertices + 1)
      ensures fresh(triangles) && triangles.Length == numtriangles
      ensures forall x :: 0 <= x < triangles.Length ==> triangles[x] == Blank
      ensures numnormals > 0 ==> fresh(normals) && normals.Length == 3 * (numnormals + 1)
      ensures numnormals == 0 ==> normals == old(normals)
      ensures numtexcoords > 0 ==> fresh(texcoords) && texcoords.Length == 2 * (numtexcoords + 1)
      ensures numtexcoords == 0 ==> texcoords == old(texcoords)
    {
      vertices := new real[3 * (numvertices + 1)];
      triangles := new Triangle[numtriangles](_ => Blank);
      if numnormals > 0 {
        normals := new real[3 * (numnormals + 1)];
      }
      if numtexcoords > 0 {
        texcoords := new real[2 * (numtexcoords + 1)];
      }
    }

    /**
     * What pass 2 stores for the records: every position, normal and
     * texcoord at its 1-based slot, and the triangle table and each
     * group's list as pass 2 makes them from the head group on.
     */
    ghost predicate Passed(recs: seq<Record<real>>)
      reads this, groups, vertices, normals, texcoords, triangles, Storage()
    {
      && groups != [] && vertices != null
      && var f := Filled(groups[0].name, recs);
         && Holds3(vertices, Positions(recs))
         && (normals != null ==> Holds3(normals, Normals(recs)))
         && (texcoords != null ==> Holds2(texcoords, TexCoords(recs)))
         && TableHolds(f.tris)
         && ListsHold(f.lists)
    }

    /**
     * Pass 2: reads the records again from the start, with the current
     * group at the head of the list and the material 0, storing each
     * vertex, normal and texcoord at its 1-based slot, triangulating each
     * face into the table and the current group's list, and giving each
     * group named by a `g` record the current material. It fails when a
     * group's list outgrows the storage pass 1 sized for it.
     */
    method SecondPass(recs: seq<Record<real>>) returns (ok: bool)
      requires ReadyFor(recs)
      modifies this`groups, this`numgroups, vertices, normals, texcoords, triangles
      modifies groups`material
      modifies groups`numtriangles, Storage()
      ensures groups == old(groups) && numgroups == old(numgroups)
      ensures ok <==> forall k :: 0 <= k < |groups| ==>
        |ListOf(Filled(groups[0].name, recs), groups[k].name)| <= groups[k].triangles.Length
      ensures ok ==> Passed(recs)
      ensures ok ==> MaterialsAfter(GroupDirNames(recs), 0, old(MaterialsOf(groups)))
      ensures vertices[..3] == old(vertices[..3])
      ensures normals != null ==> normals[..3] == old(normals[..3])
      ensures texcoords != null ==> texcoords[..2] == old(texcoords[..2])
    {
      ghost var head := groups[0].name;
      ghost var before := MaterialsOf(groups);
      forall k | 0 <= k < |groups|
        ensures groups[k].triangles[..groups[k].numtriangles] == ListIn(map[], groups[k].name)
      {
      }
      var grp, vc, nc, tc, tcount;
      ok, grp, vc, nc, tc, tcount := FillAll(recs, groups[0], 0, head, before);
    }
    /**
     * The model ReadOBJ loads from the records: pass 1's totals, group
     * names and material library; every position, normal and texcoord at
     * its 1-based slot (the normal and texcoord arrays exist exactly when
     * there are normals or texcoords); the triangle table and each group's
     * list as pass 2 makes them from the head group on; material 0 in every
     * group.
     */
    ghost predicate LoadedFrom(recs: seq<Record<real>>)
      reads this, groups, vertices, normals, texcoords, triangles, Storage()
    {
      && Count(recs).Some? && GroupsValid()
      && var t := Count(recs).value;
         && Totals(t) && mtllibname == t.mtllib
         && (normals != null <==> t.numnormals > 0)
         && (texcoords != null <==> t.numtexcoords > 0)
         && Sizes() && Passed(recs)
         && forall k :: 0 <= k < |groups| ==> groups[k].material == 0
    }

    /**
     * What the loader leaves for other functions to fill in: no facet
     * normals and no materials.
     */
    ghost predicate Unfaceted()
      reads this`numfacetnorms, this`facetnorms, this`nummaterials
    {
      numfacetnorms == 0 && facetnorms == null && nummaterials == 0
    }

    /**
     * The arrays have the sizes ReadOBJ allocates from the totals: one
     * unused slot in front of each coordinate array, one table slot per
     * triangle.
     */
    ghost predicate Sizes()
      reads this`numvertices, this`numnormals, this`numtexcoords, this`numtriangles
      reads this`vertices, this`normals, this`texcoords, this`triangles
    {
      && vertices != null && vertices.Length == 3 * (numvertices + 1)
      && triangles != null && triangles.Length == numtriangles
      && (normals != null ==> normals.Length == 3 * (numnormals + 1))
      && (texcoords != null ==> texcoords.Length == 2 * (numtexcoords + 1))
    }

    /**
     * The totals and group list of tally t, with each group's storage
     * sized by its count: what pass 1 leaves that pass 2 does not change.
     */
    ghost predicate Totals(t: Tally)
      reads this`numvertices, this`numnormals, this`numtexcoords, this`numtriangles, this`groups, groups`triangles
    {
      && numvertices == t.numvertices && numnormals == t.numnormals
      && numtexcoords == t.numtexcoords && numtriangles == t.numtriangles
      && NamesOf(groups) == t.names
      && forall k :: 0 <= k < |groups| ==>
           groups[k].triangles != null && groups[k].triangles.Length == CountOf(t.counts, groups[k].name)
    }

    /**
     * After pass 2 over the records, on storage sized from their tally and
     * groups whose materials were all 0: pass 2 fails exactly when the
     * records overflow a group's storage, and otherwise leaves the model
     * loaded from the records.
     */
    lemma PassLoads(recs: seq<Record<real>>, ok: bool, before: seq<nat>)
      requires Count(recs).Some? && Totals(Count(recs).value) && mtllibname == Count(recs).value.mtllib
      requires GroupsValid() && groups != [] && (normals != null <==> numnormals > 0) && (texcoords != null <==> numtexcoords > 0)
      requires Sizes()
      requires ok <==> forall k :: 0 <= k < |groups| ==>
        |ListOf(Filled(groups[0].name, recs), groups[k].name)| <= groups[k].triangles.Length
      requires ok ==> Passed(recs) && MaterialsAfter(GroupDirNames(recs), 0, before)
      requires forall k :: 0 <= k < |before| ==> before[k] == 0
      ensures ok <==> !Overflows(Count(recs).value, recs)
      ensures ok ==> LoadedFrom(recs)
    {
      ghost var t := Count(recs).value;
      forall k | 0 <= k < |groups|
        ensures t.names[k] == groups[k].name
      {
        assert NamesOf(groups)[k] == groups[k].name;
      }
    }

    /**
     * On a loaded model of records where no face precedes the first `g`,
     * every group's storage is exactly full: pass 2 appended to each group
     * as many triangles as pass 1 counted for it.
     */
    lemma LoadedFull(recs: seq<Record<real>>)
      requires LoadedFrom(recs) && Aligned(recs)
      ensures forall k :: 0 <= k < |groups| ==> groups[k].numtriangles == groups[k].triangles.Length
    {
      ghost var t := Count(recs).value;
      ghost var f := Filled(groups[0].name, recs);
      PassesAgree(recs);
      assert NamesOf(groups)[0] == groups[0].name;
      forall k | 0 <= k < |groups|
        ensures groups[k].numtriangles == groups[k].triangles.Length
      {
        assert groups[k].triangles[..groups[k].numtriangles] == ListIn(f.lists, groups[k].name);
      }
    }

    /**
     * Every triangle in the table names vertices among the model's
     * positions and, unless left blank, texcoords and normals among its
     * texcoords and normals (all 1-based).
     */
    ghost predicate IndicesInRange()
      reads this`triangles, triangles, this`numvertices, this`numtexcoords, this`numnormals
    {
      && triangles != null
      && forall x :: 0 <= x < triangles.Length ==> TriangleIn(triangles[x], numvertices, numtexcoords, numnormals)
    }

    /**
     * A model loaded from records whose face references name the file's
     * own positions, texcoords and normals has every index of its
     * triangle table in range.
     */
    lemma LoadedInRange(recs: seq<Record<real>>)
      requires LoadedFrom(recs) && RefsInRange(recs)
      ensures IndicesInRange()
    {
      ghost var f := Filled(groups[0].name, recs);
      CountMatchesData(recs, groups[0].name);
      FilledInRange(groups[0].name, recs, |Positions(recs)|, |TexCoords(recs)|, |Normals(recs)|);
      assert triangles[..] == f.tris;
      forall x | 0 <= x < triangles.Length
        ensures TriangleIn(triangles[x], numvertices, numtexcoords, numnormals)
      {
        assert triangles[x] == f.tris[x];
      }
    }

    /**
     * ReadOBJ between the passes: the allocations from pass 1's counts,
     * after which pass 2 can start on the same records.
     */
    method Prepare(recs: seq<Record<real>>)
      requires Count(recs).Some? && Counted(Count(recs).value)
      requires vertices == null && normals == null && texcoords == null && triangles == null
      modifies this`vertices, this`normals, this`texcoords, this`triangles
      ensures ReadyFor(recs) && Sizes() && fresh(vertices) && fresh(triangles)
      ensures normals != null <==> numnormals > 0
      ensures normals != null ==> fresh(normals)
      ensures texcoords != null ==> fresh(texcoords)
      ensures texcoords != null <==> numtexcoords > 0
    {
      CountConsistent(recs);
      AllocateArrays();
      CountMatchesData(recs, groups[0].name);
      GroupNamesListed(recs);
    }

    /**
     * Pass 2 on the prepared model: it fails exactly when the records
     * overflow a group's storage, and otherwise leaves the model loaded
     * from them.
     */
    method Fill(recs: seq<Record<real>>) returns (ok: bool)
      requires Count(recs).Some? && Totals(Count(recs).value) && mtllibname == Count(recs).value.mtllib
      requires ReadyFor(recs) && Sizes() && (normals != null <==> numnormals > 0) && (texcoords != null <==> numtexcoords > 0)
      requires forall k :: 0 <= k < |groups| ==> groups[k].material == 0
      modifies this`groups, this`numgroups, vertices, normals, texcoords, triangles
      modifies groups`material, groups`numtriangles, Storage()
      ensures ok <==> !Overflows(Count(recs).value, recs)
      ensures ok ==> LoadedFrom(recs)
    {
      ghost var before := MaterialsOf(groups);
      ok := SecondPass(recs);
      PassLoads(recs, ok, before);
    }

    /**
     * ReadOBJ after pass 1: Prepare, then pass 2 over the same records,
     * which fails exactly when it overflows a group's storage.
     */
    method Load(recs: seq<Record<real>>) returns (ok: bool)
      requires Count(recs).Some? && Counted(Count(recs).value) && mtllibname == Count(recs).value.mtllib
      requires vertices == null && normals == null && texcoords == null && triangles == null
      modifies this`groups, this`numgroups, this`vertices, this`normals, this`texcoords, this`triangles
      modifies groups`material, groups`numtriangles, Storage()
      ensures ok <==> !Overflows(Count(recs).value, recs)
      ensures ok ==> LoadedFrom(recs)
    {
      assert Totals(Count(recs).value);
      Prepare(recs);
      ok := Fill(recs);
    }
  }

  /** How ReadOBJ ends. */
  datatype Outcome =
    | Loaded(model: Model)
      /** `GRRLIB_FirstPass` calls exit(1) on a `v` directive of unknown kind. */
    | Exited
      /** A group's list outgrew the storage pass 1 sized for it (an
          out-of-bounds write in `GRRLIB_SecondPass`). */
    | Overflowed

  /**
   * Loads a model from its records: a new, empty model; pass 1; then Load.
   * Pass 1 fails on a `v` directive of unknown kind, pass 2 exactly when
   * it overflows a group's storage, which Aligned records never do.
   */
  method ReadOBJ(pathname: string, recs: seq<Record<real>>) returns (outcome: Outcome)
    ensures outcome.Exited? <==> Count(recs).None?
    ensures outcome.Overflowed? <==> Count(recs).Some? && Overflows(Count(recs).value, recs)
    ensures Count(recs).Some? && Aligned(recs) ==> outcome.Loaded?
    ensures outcome.Loaded? ==> fresh(outcome.model) && outcome.model.pathname == pathname
    ensures outcome.Loaded? ==> outcome.model.LoadedFrom(recs)
    ensures outcome.Loaded? ==> outcome.model.Unfaceted()
    ensures outcome.Loaded? && RefsInRange(recs) ==> outcome.model.IndicesInRange()
    ensures outcome.Loaded? && Aligned(recs) ==>
      forall k :: 0 <= k < |outcome.model.groups| ==>
        outcome.model.groups[k].numtriangles == outcome.model.groups[k].triangles.Length
  {
    var model := new Model(pathname);
    assert model.Unfaceted();
    var counted := model.FirstPass(recs);
    assert model.Unfaceted();
    if !counted {
      return Exited;
    }
    var filled := model.Load(recs);
    assert model.Unfaceted();
    if Aligned(recs) {
      AlignedFits(recs);
    }
    if !filled {
      return Overflowed;
    }
    if Aligned(recs) {
      model.LoadedFull(recs);
    }
    if RefsInRange(recs) {
      model.LoadedInRange(recs);
    }
    return Loaded(model);
  }
}
