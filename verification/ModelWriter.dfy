/** Writing the parts of a model file. */
module ModelWriter {
  import opened Bytes
  import opened ArrayState
  import opened ModelFile

  lemma WithNulsMore(ss: seq<Str>, s: Str)
    ensures Terminated(ss + [s]) == Terminated(ss) + s + [0]
  {
    ConcatMore(WithNuls(ss), s + [0]);
    assert WithNuls(ss + [s]) == WithNuls(ss) + [s + [0]];
  }

  /** Append strings, each with a NUL behind it. */
  method AddStrings(out: Str, ghost before: seq<Str>, ss: seq<Str>) returns (r: Str)
    requires out == Terminated(before)
    ensures r == Terminated(before + ss)
  {
    hide Terminated;
    r := out;
    assert before + ss[..0] == before;
    for i := 0 to |ss|
      invariant r == Terminated(before + ss[..i])
    {
      WithNulsMore(before + ss[..i], ss[i]);
      assert before + ss[..i + 1] == before + ss[..i] + [ss[i]];
      r := r + ss[i];
      r := r + [0];
    }
    assert ss[..|ss|] == ss;
  }

  /** NULs are appended until the two texts together have a length divisible by 4. */
  method AddPadding(n: nat, templStr: Str) returns (r: Str)
    ensures r == templStr + Padding(n + |templStr|)
  {
    r := templStr;
    ghost var k := 0;
    while (n + |r|) % 4 != 0
      invariant |r| == |templStr| + k && k <= |Padding(n + |templStr|)| && r == templStr + Padding(n + |templStr|)[..k]
      decreases |Padding(n + |templStr|)| - k
    {
      r := r + [0];
      k := k + 1;
    }
  }

  /** bofs.write. */
  method Append(out: Str, p: Str, ghost ps: seq<Str>) returns (r: Str, ghost ps': seq<Str>)
    requires out == Concat(ps)
    ensures r == Concat(ps') && ps' == ps + [p]
  {
    ConcatMore(ps, p);
    r, ps' := out + p, ps + [p];
  }

  /** The memory of the units. */
  method UnitImage(units: seq<Unit>) returns (image: Str)
    ensures image == UnitBytes(units)
  {
    hide Concat, UnitRecord;
    image := [];
    ConcatNone();
    assert UnitParts(units)[..0] == [];
    for i := 0 to |units|
      invariant image == Concat(UnitParts(units)[..i])
    {
      ConcatMore(UnitParts(units)[..i], UnitRecord(units[i]));
      assert UnitParts(units)[..i + 1] == UnitParts(units)[..i] + [UnitRecord(units[i])];
      image := image + UnitRecord(units[i]);
    }
    assert UnitParts(units)[..|units|] == UnitParts(units);
  }

  /** The loop that writes each weight as a float. */
  method FloatImage(c: Codec, alpha: seq<real>) returns (image: Str)
    ensures image == FloatBytes(c, alpha)
  {
    hide Concat;
    image := [];
    ConcatNone();
    assert FloatParts(c, alpha)[..0] == [];
    for i := 0 to |alpha|
      invariant image == Concat(FloatParts(c, alpha)[..i])
    {
      ConcatMore(FloatParts(c, alpha)[..i], c.float(alpha[i]));
      assert FloatParts(c, alpha)[..i + 1] == FloatParts(c, alpha)[..i] + [c.float(alpha[i])];
      image := image + c.float(alpha[i]);
    }
    assert FloatParts(c, alpha)[..|alpha|] == FloatParts(c, alpha);
  }

  lemma TerminatedNone()
    ensures Terminated([]) == []
  {}

  lemma ConcatNone()
    ensures Concat([]) == []
  {}
}
