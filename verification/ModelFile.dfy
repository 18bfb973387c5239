/** The bytes of a model file, and how they are read back. */
module ModelFile {
  import opened Bytes
  import opened ArrayState

  /** How doubles and floats are stored; only the sizes matter. A value that survives is a double, or a float. */
  datatype Codec = Codec(double: real -> Str, readDouble: Str -> real, float: real -> Str, readFloat: Str -> real)

  ghost predicate Lawful(c: Codec) {
    && (forall x :: |c.double(x)| == 8)
    && (forall x :: |c.float(x)| == 4)
  }

  ghost predicate IsDouble(c: Codec, x: real) {
    c.readDouble(c.double(x)) == x
  }

  /** The cast of a double to a float. */
  ghost function ToFloat(c: Codec, x: real): real {
    c.readFloat(c.float(x))
  }

  // ---------- integers ----------

  /** A 32-bit integer in memory, lowest byte first; larger values wrap around. */
  function Le32(n: int): (b: Str)
    ensures |b| == 4
  {
    var u := n % 0x1_0000_0000;
    [(u % 256) as byte, (u / 256 % 256) as byte, (u / 65536 % 256) as byte, (u / 16777216) as byte]
  }

  function ReadLe32(b: Str): (n: nat)
    requires |b| == 4
  {
    b[0] as nat + 256 * b[1] as nat + 65536 * b[2] as nat + 16777216 * b[3] as nat
  }

  /** The same four bytes as a signed integer. */
  function ReadInt32(b: Str): int
    requires |b| == 4
  {
    var u := ReadLe32(b);
    if u >= 0x8000_0000 then u - 0x1_0000_0000 else u
  }

  lemma Le32Read(n: int)
    ensures ReadLe32(Le32(n)) == n % 0x1_0000_0000
  {
    var u := n % 0x1_0000_0000;
    assert u == u % 256 + 256 * (u / 256);
    assert u / 256 == u / 256 % 256 + 256 * (u / 256 / 256) && u / 256 / 256 == u / 65536;
    assert u / 65536 == u / 65536 % 256 + 256 * (u / 65536 / 256) && u / 65536 / 256 == u / 16777216;
  }

  /** Unsigned and signed values within 32 bits survive. */
  lemma Le32RoundTrip(n: int)
    ensures 0 <= n < 0x1_0000_0000 ==> ReadLe32(Le32(n)) == n
    ensures -0x8000_0000 <= n < 0x8000_0000 ==> ReadInt32(Le32(n)) == n
  {
    Le32Read(n);
  }

  // ---------- concatenations ----------

  function Concat(ps: seq<Str>): Str {
    if ps == [] then [] else Concat(ps[..|ps| - 1]) + ps[|ps| - 1]
  }

  lemma ConcatMore(ps: seq<Str>, p: Str)
    ensures Concat(ps + [p]) == Concat(ps) + p
  {
    assert (ps + [p])[..|ps|] == ps;
  }

  /** Where part k starts. */
  ghost function Start(ps: seq<Str>, k: nat): nat
    requires k <= |ps|
  {
    |Concat(ps[..k])|
  }

  /** Each part is found where the ones before it end. */
  lemma {:induction false} PartAt(ps: seq<Str>, k: nat)
    requires k < |ps|
    ensures Start(ps, k + 1) == Start(ps, k) + |ps[k]| <= |Concat(ps)|
    ensures Concat(ps)[Start(ps, k)..Start(ps, k + 1)] == ps[k]
  {
    var most := ps[..|ps| - 1];
    assert ps[..k + 1][..k] == ps[..k];
    if k < |most| {
      PartAt(most, k);
      assert most[..k] == ps[..k] && most[..k + 1] == ps[..k + 1];
    } else {
      assert most == ps[..k] && ps[..k + 1] == ps;
    }
  }

  lemma StartsEnds(ps: seq<Str>)
    ensures Start(ps, 0) == 0 && Start(ps, |ps|) == |Concat(ps)|
  {
    assert ps[..|ps|] == ps;
  }

  /** Parts of equal size can be found by their index alone. */
  lemma {:induction false} EqualParts(ps: seq<Str>, size: nat, k: nat)
    requires k <= |ps| && forall i :: 0 <= i < |ps| ==> |ps[i]| == size
    ensures Start(ps, k) == size * k
  {
    if k > 0 {
      EqualParts(ps, size, k - 1);
      PartAt(ps, k - 1);
      assert size * k == size * (k - 1) + size;
    }
  }

  function UnitRecord(u: Unit): Str {
    Le32(u.base) + Le32(u.check)
  }

  function ReadUnit(b: Str): Unit
    requires |b| == 8
  {
    Unit(ReadInt32(b[..4]), ReadLe32(b[4..]))
  }

  ghost function UnitParts(units: seq<Unit>): seq<Str> {
    seq(|units|, i requires 0 <= i < |units| => UnitRecord(units[i]))
  }

  ghost function UnitBytes(units: seq<Unit>): Str {
    Concat(UnitParts(units))
  }

  /** Every unit has a base that fits a signed, and a check that fits an unsigned 32-bit integer. */
  ghost predicate UnitsFit(units: seq<Unit>) {
    forall i :: 0 <= i < |units| ==> -0x8000_0000 <= units[i].base < 0x8000_0000 && units[i].check < 0x1_0000_0000
  }

  lemma ReadUnitBack(u: Unit)
    requires -0x8000_0000 <= u.base < 0x8000_0000 && u.check < 0x1_0000_0000
    ensures ReadUnit(UnitRecord(u)) == u
  {
    Le32RoundTrip(u.base);
    Le32RoundTrip(u.check);
    assert UnitRecord(u)[..4] == Le32(u.base) && UnitRecord(u)[4..] == Le32(u.check);
  }

  ghost function FloatParts(c: Codec, alpha: seq<real>): seq<Str> {
    seq(|alpha|, i requires 0 <= i < |alpha| => c.float(alpha[i]))
  }

  ghost function FloatBytes(c: Codec, alpha: seq<real>): Str {
    Concat(FloatParts(c, alpha))
  }

  // ---------- lists of strings ----------

  ghost predicate NoNul(ss: seq<Str>) {
    forall i :: 0 <= i < |ss| ==> 0 !in ss[i]
  }

  /** Strings without NUL that start with b. */
  ghost predicate Templates(ts: seq<Str>, b: byte) {
    NoNul(ts) && forall i :: 0 <= i < |ts| ==> ts[i] != [] && ts[i][0] == b
  }

  /** Strings one after the other, each with a NUL behind it. */
  ghost function Terminated(ss: seq<Str>): Str {
    Concat(WithNuls(ss))
  }

  ghost function WithNuls(ss: seq<Str>): (r: seq<Str>)
    ensures |r| == |ss|
  {
    seq(|ss|, i requires 0 <= i < |ss| => ss[i] + [0])
  }

  /** Bytes that bring a length up to a multiple of 4. */
  ghost function Padding(n: nat): (p: Str)
    ensures |p| < 4 && (n + |p|) % 4 == 0 && forall i :: 0 <= i < |p| ==> p[i] == 0
  {
    seq((4 - n % 4) % 4, _ => 0)
  }

  // ---------- the file ----------

  /** What save writes. */
  datatype Model = Model(version: nat, costFactor: real, maxid: nat, xsize: nat, y: seq<Str>,
                         unigram: seq<Str>, bigram: seq<Str>, units: seq<Unit>, alpha: seq<real>)

  ghost function TagBytes(m: Model): Str {
    Terminated(m.y)
  }

  ghost function TemplateBytes(m: Model): Str {
    var s := Terminated(m.unigram + m.bigram);
    s + Padding(|TagBytes(m)| + |s|)
  }

  /** The parts of the file, in the order they are written. */
  ghost function Parts(c: Codec, m: Model): seq<Str> {
    [Le32(m.version), Le32(0), c.double(m.costFactor), Le32(m.maxid), Le32(m.xsize), Le32(8 * |m.units|),
     Le32(|TagBytes(m)|), TagBytes(m), Le32(|TemplateBytes(m)|), TemplateBytes(m),
     UnitBytes(m.units), FloatBytes(c, m.alpha)]
  }

  ghost function FileBytes(c: Codec, m: Model): Str {
    Concat(Parts(c, m))
  }

  /** The invariants of an index with a dictionary, and sizes that fit 32-bit integers. */
  ghost predicate Writable(c: Codec, m: Model) {
    && Lawful(c) && IsDouble(c, m.costFactor)
    && NoNul(m.y) && NoNul(m.unigram) && NoNul(m.bigram)
    && (forall i :: 0 <= i < |m.unigram| ==> |m.unigram[i]| > 0 && m.unigram[i][0] == 85)
    && (forall i :: 0 <= i < |m.bigram| ==> |m.bigram[i]| > 0 && m.bigram[i][0] == 66)
    && |m.alpha| == m.maxid && UnitsFit(m.units) && |m.units| > 0 && m.units[0].base == 1
    && m.version < 0x1_0000_0000 && m.maxid < 0x1_0000_0000 && m.xsize < 0x1_0000_0000 && 8 * |m.units| < 0x1_0000_0000
    && |TagBytes(m)| < 0x1_0000_0000 && |TemplateBytes(m)| < 0x1_0000_0000
  }
}
