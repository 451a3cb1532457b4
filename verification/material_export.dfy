/** export/material.py: the material cache (a de-duplicated list whose
    positions are material ids) and the colour and emission tables its
    commit builds. */
module MaterialExport {
  import opened Vector
  import opened Options
  import opened Blender

  /** The fallback row when no material was registered. */
  const Magenta: Vec4 := Vec4(1.0, 0.0, 1.0, 1.0)

  predicate NoDuplicates(ms: seq<Option<Material>>)
  {
    forall i, j :: 0 <= i < j < |ms| ==> ms[i] != ms[j]
  }

  /** `add`: append the material unless it is already in the list. */
  function AddMaterial(ms: seq<Option<Material>>, m: Option<Material>): (r: seq<Option<Material>>)
    ensures m in r && |ms| <= |r| <= |ms| + 1 && r[..|ms|] == ms
    ensures forall x :: x in r ==> x in ms || x == m
    ensures m in ms <==> |r| == |ms|
  {
    if m in ms then ms else ms + [m]
  }

  /** Adding twice is adding once. */
  lemma AddMaterialIdempotent(ms: seq<Option<Material>>, m: Option<Material>)
    ensures AddMaterial(AddMaterial(ms, m), m) == AddMaterial(ms, m)
  {
  }

  /** The list never holds a material twice. */
  lemma AddMaterialNoDuplicates(ms: seq<Option<Material>>, m: Option<Material>)
    requires NoDuplicates(ms)
    ensures NoDuplicates(AddMaterial(ms, m))
  {
  }

  /** Python's `list.index`: the first position holding m. */
  function IndexOf(ms: seq<Option<Material>>, m: Option<Material>): (i: nat)
    requires m in ms
    ensures i < |ms| && ms[i] == m
    ensures forall j :: 0 <= j < i ==> ms[j] != m
  {
    if ms[0] == m then 0 else 1 + IndexOf(ms[1..], m)
  }

  /** In a list without duplicates the position of m is the only one. */
  lemma IndexOfUnique(ms: seq<Option<Material>>, i: nat)
    requires NoDuplicates(ms) && i < |ms|
    ensures IndexOf(ms, ms[i]) == i
  {
  }

  /** `get_index` of a new material is the old length; of a known one it
      is unchanged, whatever was added since. */
  lemma GetIndexSpec(ms: seq<Option<Material>>, m: Option<Material>, x: Option<Material>)
    ensures m !in ms ==> IndexOf(AddMaterial(ms, m), m) == |ms|
    ensures x in ms ==> IndexOf(AddMaterial(ms, m), x) == IndexOf(ms, x)
  {
    var r := AddMaterial(ms, m);
    if m !in ms {
      assert r[|ms|] == m;
    }
    if x in ms {
      var i := IndexOf(ms, x);
      assert r[i] == x;
      assert forall j :: 0 <= j < i ==> r[j] == ms[j];
    }
  }

  /** The materials after adding each slot's material in turn. */
  function AddAll(ms: seq<Option<Material>>, slots: seq<Option<Material>>): (r: seq<Option<Material>>)
    ensures |ms| <= |r| && r[..|ms|] == ms
    ensures forall x :: x in slots ==> x in r
    ensures forall x :: x in r ==> x in ms || x in slots
  {
    if slots == [] then ms
    else
      var prev := AddAll(ms, slots[..|slots| - 1]);
      assert forall x :: x in slots ==> x in slots[..|slots| - 1] || x == slots[|slots| - 1];
      assert prev[..|ms|] == AddMaterial(prev, slots[|slots| - 1])[..|prev|][..|ms|];
      AddMaterial(prev, slots[|slots| - 1])
  }

  lemma {:induction false} AddAllNoDuplicates(ms: seq<Option<Material>>, slots: seq<Option<Material>>)
    requires NoDuplicates(ms)
    ensures NoDuplicates(AddAll(ms, slots))
    decreases |slots|
  {
    if slots != [] {
      AddAllNoDuplicates(ms, slots[..|slots| - 1]);
      AddMaterialNoDuplicates(AddAll(ms, slots[..|slots| - 1]), slots[|slots| - 1]);
    }
  }

  /** `get_color`: a missing material gives 0s, else the diffuse colour. */
  function GetColor(m: Option<Material>): Vec4
  {
    if m.None? then Splat4(0.0) else m.value.diffuseColor
  }

  /** A Material Output node whose Surface comes from an Emission node. */
  predicate IsEmissionOutput(n: ShaderNode)
  {
    n.OutputMaterial? && n.surface.FromEmission?
  }

  /** The colour such a node gives: Color times Strength. */
  function EmissionOf(n: ShaderNode): Vec4
    requires IsEmissionOutput(n)
  {
    Scale4(n.surface.color, n.surface.strength)
  }

  /** The emission of the last emitting output node, if there is one. */
  function LastEmission(nodes: seq<ShaderNode>): Option<Vec4>
  {
    if nodes == [] then None
    else if IsEmissionOutput(nodes[|nodes| - 1]) then Some(EmissionOf(nodes[|nodes| - 1]))
    else LastEmission(nodes[..|nodes| - 1])
  }

  /** None exactly when no node emits; otherwise the colour of an emitting
      node after which no node emits. */
  lemma {:induction false} LastEmissionSpec(nodes: seq<ShaderNode>)
    ensures LastEmission(nodes).None? <==> forall i :: 0 <= i < |nodes| ==> !IsEmissionOutput(nodes[i])
    ensures LastEmission(nodes).Some? ==>
      exists i :: 0 <= i < |nodes| && IsEmissionOutput(nodes[i]) && LastEmission(nodes).value == EmissionOf(nodes[i]) &&
                  forall j :: i < j < |nodes| ==> !IsEmissionOutput(nodes[j])
  {
    if nodes != [] && !IsEmissionOutput(nodes[|nodes| - 1]) {
      LastEmissionSpec(nodes[..|nodes| - 1]);
      assert forall i :: 0 <= i < |nodes| - 1 ==> nodes[..|nodes| - 1][i] == nodes[i];
    }
  }

  /** What `get_emission_color` returns: zero unless the material has a
      node tree with an emitting output node, then the last one's colour. */
  function EmissionColor(m: Option<Material>): Vec4
  {
    if m.None? || m.value.nodeTree.None? then Splat4(0.0)
    else match LastEmission(m.value.nodeTree.value)
      case None => Splat4(0.0)
      case Some(c) => c
  }

  /** `get_emission_color`: walks the nodes, overwriting the colour at each
      emitting output node. */
  method GetEmissionColor(m: Option<Material>) returns (col: Vec4)
    ensures col == EmissionColor(m)
  {
    col := Splat4(0.0);
    if m.Some? {
      if m.value.nodeTree.Some? {
        var nodes := m.value.nodeTree.value;
        var i := 0;
        while i < |nodes|
          invariant 0 <= i <= |nodes|
          invariant col == match LastEmission(nodes[..i]) case None => Splat4(0.0) case Some(c) => c
        {
          if nodes[i].OutputMaterial? {
            if nodes[i].surface.FromEmission? {
              col := Scale4(nodes[i].surface.color, nodes[i].surface.strength);
            }
          }
          assert nodes[..i + 1][..i] == nodes[..i];
          i := i + 1;
        }
        assert nodes[..i] == nodes;
      }
    }
  }

  /** Emission is zero exactly when no output node is fed by an Emission
      node; otherwise it is Color times Strength of the last such node. */
  lemma EmissionColorSpec(m: Material)
    requires m.nodeTree.Some?
    ensures (forall i :: 0 <= i < |m.nodeTree.value| ==> !IsEmissionOutput(m.nodeTree.value[i])) ==>
            EmissionColor(Some(m)) == Splat4(0.0)
    ensures forall i :: 0 <= i < |m.nodeTree.value| && IsEmissionOutput(m.nodeTree.value[i]) &&
                        (forall j :: i < j < |m.nodeTree.value| ==> !IsEmissionOutput(m.nodeTree.value[j])) ==>
                        EmissionColor(Some(m)) == EmissionOf(m.nodeTree.value[i])
  {
    LastEmissionSpec(m.nodeTree.value);
  }

  /** The colour table `commit` builds. */
  function ColorTable(ms: seq<Option<Material>>): (rows: seq<Vec4>)
    ensures |rows| == if |ms| == 0 then 1 else |ms|
    ensures |ms| == 0 ==> rows == [Magenta]
    ensures forall i :: 0 <= i < |ms| && ms[i].Some? ==> rows[i] == ms[i].value.diffuseColor
    ensures forall i :: 0 <= i < |ms| && ms[i].None? ==> rows[i] == Splat4(0.0)
  {
    if |ms| == 0 then [Magenta] else seq(|ms|, i requires 0 <= i < |ms| => GetColor(ms[i]))
  }

  /** The emission table `commit` builds. */
  function EmissionTable(ms: seq<Option<Material>>): (rows: seq<Vec4>)
    ensures |rows| == if |ms| == 0 then 1 else |ms|
    ensures |ms| == 0 ==> rows == [Magenta]
    ensures forall i :: 0 <= i < |ms| ==> rows[i] == EmissionColor(ms[i])
  {
    if |ms| == 0 then [Magenta] else seq(|ms|, i requires 0 <= i < |ms| => EmissionColor(ms[i]))
  }

  class MaterialCache {
    /** The registered materials; a material's id is its position. */
    var materials: seq<Option<Material>>
    /** The tables `commit` builds (empty before the first commit). */
    var color: seq<Vec4>
    var emissionColor: seq<Vec4>

    ghost predicate Valid()
      reads this
    {
      NoDuplicates(materials)
    }

    constructor()
      ensures Valid() && materials == [] && color == [] && emissionColor == []
    {
      materials := [];
      color := [];
      emissionColor := [];
    }

    method Add(m: Option<Material>)
      requires Valid()
      modifies this
      ensures Valid()
      ensures materials == AddMaterial(old(materials), m)
      ensures color == old(color) && emissionColor == old(emissionColor)
    {
      if m !in materials {
        materials := materials + [m];
      }
      AddMaterialNoDuplicates(old(materials), m);
    }

    method GetIndex(m: Option<Material>) returns (idx: nat)
      requires Valid()
      modifies this
      ensures Valid()
      ensures materials == AddMaterial(old(materials), m)
      ensures color == old(color) && emissionColor == old(emissionColor)
      ensures idx < |materials| && materials[idx] == m
      ensures m !in old(materials) ==> idx == |old(materials)|
      ensures m in old(materials) ==> idx == IndexOf(old(materials), m)
    {
      Add(m);
      idx := IndexOf(materials, m);
      GetIndexSpec(old(materials), m, m);
    }

    method Commit()
      modifies this
      ensures materials == old(materials)
      ensures color == ColorTable(materials) && emissionColor == EmissionTable(materials)
    {
      if |materials| == 0 {
        color := [Magenta];
        emissionColor := [Magenta];
      } else {
        var cs: seq<Vec4> := [];
        var es: seq<Vec4> := [];
        var i := 0;
        while i < |materials|
          invariant 0 <= i <= |materials| && materials == old(materials)
          invariant |cs| == i && |es| == i
          invariant forall k :: 0 <= k < i ==> cs[k] == GetColor(materials[k]) && es[k] == EmissionColor(materials[k])
        {
          var e := GetEmissionColor(materials[i]);
          cs := cs + [GetColor(materials[i])];
          es := es + [e];
          i := i + 1;
        }
        color := cs;
        emissionColor := es;
      }
    }
  }
}
