/*
 * The record stream a Wavefront OBJ file is read as, the triangle record the
 * loader fills, and the fan geometry both passes share.
 *
 * The loader reads its file with fscanf: a directive token, then whatever the
 * directive expects. Here that tokenising is already done: a file is a
 * sequence of Records, one per directive, and each carries the values the
 * scanner would have stored. Coordinates are of an opaque type C, since the
 * loader only copies them.
 */
module ObjRecords {

  datatype Option<T> = None | Some(value: T)

  /** A position or a normal: three coordinates. */
  datatype Coord3<C> = Coord3(x: C, y: C, z: C)

  /** A texture coordinate: two coordinates. */
  datatype Coord2<C> = Coord2(x: C, y: C)

  /**
   * One corner reference of a face: its vertex, texcoord and normal index as
   * the scanner left them (the parts a grammar lacks are never used).
   */
  datatype Ref = Ref(v: nat, t: nat, n: nat)

  /** The references of a face record; the scanner always reads at least the first. */
  type FaceRefs = s: seq<Ref> | |s| >= 1 witness [Ref(0, 0, 0)]

  /**
   * The four index grammars a face can use, chosen from its first reference:
   * `v//n`, `v/t/n`, `v/t` and a bare `v`.
   */
  datatype Grammar = PosNormal | PosTexNormal | PosTex | PosOnly

  /** One directive of an OBJ file, selected by its first one or two characters. */
  datatype Record<C> =
    | Comment                              // `#`: rest of line skipped
    | Vertex(pos: Coord3<C>)               // `v`
    | Normal(normal: Coord3<C>)            // `vn`
    | TexCoord(tex: Coord2<C>)             // `vt`
    | BadVertexKind                        // `v` followed by any other character
    | MtlLib(file: string)                 // `m...`: material library name
    | UseMtl                               // `u...`: read and discarded
    | GroupDir(name: string)               // `g`: first token of the rest of the line
    | Face(grammar: Grammar, refs: FaceRefs)  // `f`
    | Unknown                              // any other leading character

  /** Three corner indices. */
  type Idx3 = s: seq<nat> | |s| == 3 witness [0, 0, 0]

  /** A triangle of the model: vertex, texcoord and normal index per corner. */
  datatype Triangle = Triangle(vindices: Idx3, tindices: Idx3, nindices: Idx3)

  /** A triangle slot as allocated, before pass 2 writes into it. */
  const Blank: Triangle := Triangle([0, 0, 0], [0, 0, 0], [0, 0, 0])

  /** The grammars that carry a texcoord index. */
  predicate WritesTex(g: Grammar) {
    g == PosTexNormal || g == PosTex
  }

  /** The grammars that carry a normal index. */
  predicate WritesNormal(g: Grammar) {
    g == PosNormal || g == PosTexNormal
  }

  /**
   * Slot `slot` after the first triangle of a face is written into it with
   * corners a, b, c: the vertex indices always, the texcoord and normal
   * indices only where the grammar has them.
   */
  function Corners(g: Grammar, slot: Triangle, a: Ref, b: Ref, c: Ref): (r: Triangle)
    ensures r.vindices == [a.v, b.v, c.v]
    ensures r.tindices == if WritesTex(g) then [a.t, b.t, c.t] else slot.tindices
    ensures r.nindices == if WritesNormal(g) then [a.n, b.n, c.n] else slot.nindices
  {
    var t0 := slot.(vindices := [a.v, b.v, c.v]);
    var t1 := if WritesTex(g) then t0.(tindices := [a.t, b.t, c.t]) else t0;
    if WritesNormal(g) then t1.(nindices := [a.n, b.n, c.n]) else t1
  }

  /**
   * Slot `slot` after a later triangle of a face is written into it: corner 0
   * and corner 2 of the previous triangle `prev` become corners 0 and 1, and
   * the new reference r becomes corner 2, for each index kind the grammar has.
   */
  function NextInFan(g: Grammar, slot: Triangle, prev: Triangle, r: Ref): (t: Triangle)
    ensures t.vindices == [prev.vindices[0], prev.vindices[2], r.v]
    ensures t.tindices == if WritesTex(g) then [prev.tindices[0], prev.tindices[2], r.t] else slot.tindices
    ensures t.nindices == if WritesNormal(g) then [prev.nindices[0], prev.nindices[2], r.n] else slot.nindices
  {
    var t0 := slot.(vindices := [prev.vindices[0], prev.vindices[2], r.v]);
    var t1 := if WritesTex(g) then t0.(tindices := [prev.tindices[0], prev.tindices[2], r.t]) else t0;
    if WritesNormal(g) then t1.(nindices := [prev.nindices[0], prev.nindices[2], r.n]) else t1
  }

  /**
   * The references a face is triangulated from. When a face has fewer than
   * three, the reads of the missing ones fail and leave the last values read
   * in place, so the last reference stands in for them.
   */
  function Padded(refs: FaceRefs): (p: seq<Ref>)
    ensures |p| == if |refs| >= 3 then |refs| else 3
    ensures forall k :: 0 <= k < |refs| ==> p[k] == refs[k]
    ensures forall k :: |refs| <= k < |p| ==> p[k] == refs[|refs| - 1]
  {
    if |refs| >= 3 then refs
    else if |refs| == 2 then refs + [refs[1]]
    else refs + [refs[0], refs[0]]
  }

  /**
   * The number of triangles a face yields: one for its first three
   * references, one more for each reference after the third.
   */
  function FanSize(refs: FaceRefs): (m: nat)
    ensures m >= 1
    ensures m == |Padded(refs)| - 2
  {
    if |refs| > 3 then 1 + (|refs| - 3) else 1
  }

  /**
   * Slot `slot` after triangle j (0-based) of the fan over a face is
   * written into it: corners r0, r(j+1), r(j+2).
   */
  function FanCorners(g: Grammar, slot: Triangle, refs: FaceRefs, j: nat): Triangle
    requires j < FanSize(refs)
  {
    var p := Padded(refs);
    Corners(g, slot, p[0], p[j + 1], p[j + 2])
  }

  /**
   * Copying corners 0 and 2 of the previous triangle forward and adding the
   * next reference yields the fan's next triangle, whatever the previous
   * slot held outside the grammar's index kinds.
   */
  lemma NextInFanIsFan(g: Grammar, slot: Triangle, prev_slot: Triangle, refs: FaceRefs, j: nat)
    requires j + 3 < |refs|
    ensures NextInFan(g, slot, FanCorners(g, prev_slot, refs, j), refs[j + 3]) == FanCorners(g, slot, refs, j + 1)
  {
  }

  /** Triangle j (0-based) of the fan over a face, written into a blank slot. */
  function FanTriangle(g: Grammar, refs: FaceRefs, j: nat): Triangle
    requires j < FanSize(refs)
  {
    FanCorners(g, Blank, refs, j)
  }

  /** All triangles of the fan over a face, in the order they are written. */
  function Fan(g: Grammar, refs: FaceRefs): (ts: seq<Triangle>)
    ensures |ts| == FanSize(refs)
  {
    seq(FanSize(refs), j requires 0 <= j < FanSize(refs) => FanTriangle(g, refs, j))
  }

  /**
   * The fan's triangle j has corners (r0, r(j+1), r(j+2)) for every index
   * kind the grammar carries; the kinds it lacks are left as allocated.
   */
  lemma FanShape(g: Grammar, refs: FaceRefs, j: nat)
    requires 3 <= |refs| && j < |refs| - 2
    ensures FanSize(refs) == |refs| - 2
    ensures Fan(g, refs)[j].vindices == [refs[0].v, refs[j + 1].v, refs[j + 2].v]
    ensures Fan(g, refs)[j].tindices == if WritesTex(g) then [refs[0].t, refs[j + 1].t, refs[j + 2].t] else [0, 0, 0]
    ensures Fan(g, refs)[j].nindices == if WritesNormal(g) then [refs[0].n, refs[j + 1].n, refs[j + 2].n] else [0, 0, 0]
  {
  }
}
