/**
 * The class-file version of a classfile (`major.minor`), with the feature tests the decompiler
 * asks of it.  Java `int` arithmetic is written out: the constructor keeps the low 16 bits of
 * each part, `toInt` packs them with a 32-bit shift and `fromInt` unpacks with an arithmetic
 * shift.
 */
module BytecodeVersion {
  /** Java's `int`. */
  type Int32 = x: int | -0x8000_0000 <= x < 0x8000_0000

  const PREVIEW: int := 65535
  const MAJOR_1_0_2: int := 45
  const MAJOR_1_2: int := 46
  const MAJOR_1_3: int := 47
  const MAJOR_1_4: int := 48
  const MAJOR_5: int := 49
  const MAJOR_6: int := 50
  const MAJOR_7: int := 51
  const MAJOR_8: int := 52
  const MAJOR_9: int := 53
  const MAJOR_10: int := 54
  const MAJOR_11: int := 55
  const MAJOR_12: int := 56
  const MAJOR_13: int := 57
  const MAJOR_14: int := 58
  const MAJOR_15: int := 59
  const MAJOR_16: int := 60
  const MAJOR_17: int := 61

  /** `MAJOR_n << 16`; none of the majors is large enough to reach the sign bit. */
  function VersionConst(major: int): int { major * 0x1_0000 }
  /** `VERSION_n | PREVIEW`. */
  function PreviewConst(major: int): int { major * 0x1_0000 + PREVIEW }

  const VERSION_1_0_2: int := VersionConst(MAJOR_1_0_2)
  const VERSION_1_4: int := VersionConst(MAJOR_1_4)
  const VERSION_5: int := VersionConst(MAJOR_5)
  const VERSION_8: int := VersionConst(MAJOR_8)
  const VERSION_15: int := VersionConst(MAJOR_15)
  const VERSION_16: int := VersionConst(MAJOR_16)
  const VERSION_17: int := VersionConst(MAJOR_17)
  const VERSION_12_PREVIEW: int := PreviewConst(MAJOR_12)
  const VERSION_13_PREVIEW: int := PreviewConst(MAJOR_13)
  const VERSION_14_PREVIEW: int := PreviewConst(MAJOR_14)
  const VERSION_15_PREVIEW: int := PreviewConst(MAJOR_15)
  const VERSION_16_PREVIEW: int := PreviewConst(MAJOR_16)
  const VERSION_17_PREVIEW: int := PreviewConst(MAJOR_17)

  /** An object of the class: both parts are already reduced to 16 bits by the constructor. */
  datatype Version = Version(major: int, minor: int)
  {
    ghost predicate Valid() { 0 <= major < 0x1_0000 && 0 <= minor < 0x1_0000 }
  }

  /** `x & 0xffff` on a two's-complement `int`: the 16-bit value congruent to `x`. */
  function Low16(x: int): (r: int)
    ensures 0 <= r < 0x1_0000
    ensures (x - r) % 0x1_0000 == 0
  {
    x % 0x1_0000
  }

  /** The constructor `BytecodeVersion(int major, int minor)`. */
  function Make(major: Int32, minor: Int32): (v: Version)
    ensures v.Valid()
    ensures (major - v.major) % 0x1_0000 == 0 && (minor - v.minor) % 0x1_0000 == 0
    ensures 0 <= major < 0x1_0000 && 0 <= minor < 0x1_0000 ==> v == Version(major, minor)
  {
    Version(Low16(major), Low16(minor))
  }

  /** Reads a 32-bit pattern in `[0, 2^32)` as a signed `int`. */
  function Signed32(u: int): (r: Int32)
    requires 0 <= u < 0x1_0000_0000
    ensures (u - r) % 0x1_0000_0000 == 0
  {
    if u < 0x8000_0000 then u else u - 0x1_0000_0000
  }

  /** `major << 16 | minor`: the shift drops the high bits of `major`, and the `|` is an
    * addition because the low 16 bits of the shifted major are zero. */
  function ToInt(v: Version): (r: Int32)
    requires v.Valid()
    ensures r < 0 <==> v.major >= 0x8000
    ensures (r - (v.major * 0x1_0000 + v.minor)) % 0x1_0000_0000 == 0
  {
    Signed32(v.major * 0x1_0000 + v.minor)
  }

  /** `hashCode()` is `toInt()`, so the hash code determines the version it came from. */
  function HashCode(v: Version): (r: Int32)
    requires v.Valid()
    ensures FromInt(r) == v
  {
    FromIntToInt(v);
    ToInt(v)
  }

  /** `fromInt(encoded)`: `encoded >> 16` is an arithmetic shift, which is floor division
    * (Dafny's `/` with a positive divisor). */
  function FromInt(encoded: Int32): (v: Version)
    ensures v.Valid()
    ensures v.minor == Low16(encoded)
    ensures 0 <= encoded ==> v == Version(encoded / 0x1_0000, encoded % 0x1_0000)
    ensures encoded < 0 ==> 0x8000 <= v.major
  {
    Make(encoded / 0x1_0000, encoded)
  }

  /** The feature tests: each holds exactly from the first version of its Java release on. */
  function HasEnums(v: Version): (r: bool)
    ensures v.Valid() ==> (r <==> Compare(Version(MAJOR_5, 0), v) <= 0)
  {
    v.major >= MAJOR_5
  }

  function HasInvokeDynamic(v: Version): (r: bool)
    ensures v.Valid() ==> (r <==> Compare(Version(MAJOR_7, 0), v) <= 0)
  {
    v.major >= MAJOR_7
  }

  function HasLambdas(v: Version): (r: bool)
    ensures v.Valid() ==> (r <==> Compare(Version(MAJOR_8, 0), v) <= 0)
  {
    v.major >= MAJOR_8
  }

  function HasIndyStringConcat(v: Version): (r: bool)
    ensures v.Valid() ==> (r <==> Compare(Version(MAJOR_9, 0), v) <= 0)
  {
    v.major >= MAJOR_9
  }

  /** Sealed classes: from Java 17 on, and in the preview versions of Java 15 and 16 only. */
  function HasSealedClasses(v: Version): (r: bool)
    ensures v.Valid() ==>
              (r <==> Compare(Version(MAJOR_17, 0), v) <= 0
                      || v == Version(MAJOR_15, PREVIEW) || v == Version(MAJOR_16, PREVIEW))
  {
    v.major >= MAJOR_17 || (v.major >= MAJOR_15 && v.minor == PREVIEW)
  }

  /** `Integer.compare`. */
  function CompareInt(a: int, b: int): (r: int)
    ensures r == 0 <==> a == b
    ensures r < 0 <==> a < b
    ensures r == -1 || r == 0 || r == 1
  {
    if a < b then -1 else if a == b then 0 else 1
  }

  /** `compareTo`: majors first, minors break a tie. */
  function Compare(a: Version, b: Version): (r: int)
    ensures r == -1 || r == 0 || r == 1
    ensures r == 0 <==> a == b
    ensures r < 0 <==> a.major < b.major || (a.major == b.major && a.minor < b.minor)
  {
    var cmp := CompareInt(a.major, b.major);
    if cmp != 0 then cmp else CompareInt(a.minor, b.minor)
  }

  /** `equals`: same major and same minor. */
  function Equals(a: Version, b: Version): (r: bool)
    ensures r <==> a == b
  {
    a.major == b.major && a.minor == b.minor
  }

  // ---------------------------------------------------------------------------------------
  // Packing

  /** Splitting a non-negative number below `2^32` into its high and low 16-bit halves. */
  lemma {:induction false} SplitHalves(u: int)
    requires 0 <= u < 0x1_0000_0000
    ensures u == (u / 0x1_0000) * 0x1_0000 + u % 0x1_0000
    ensures 0 <= u / 0x1_0000 < 0x1_0000
  {
  }

  /** Reading the packed pattern back: the arithmetic shift of the signed value, reduced to
    * 16 bits, is the major, and its low 16 bits are the minor. */
  lemma {:induction false} UnpackSigned(major: int, minor: int)
    requires 0 <= major < 0x1_0000 && 0 <= minor < 0x1_0000
    ensures Low16(Signed32(major * 0x1_0000 + minor) / 0x1_0000) == major
    ensures Low16(Signed32(major * 0x1_0000 + minor)) == minor
  {
    var u := major * 0x1_0000 + minor;
    if u < 0x8000_0000 {
      assert u / 0x1_0000 == major;
    } else {
      var s := u - 0x1_0000_0000;
      assert s == (major - 0x1_0000) * 0x1_0000 + minor;
      assert s / 0x1_0000 == major - 0x1_0000;
      assert s % 0x1_0000 == minor;
    }
  }

  /** `fromInt(v.toInt())` gives back `v`. */
  lemma {:induction false} FromIntToInt(v: Version)
    requires v.Valid()
    ensures FromInt(ToInt(v)) == v
  {
    UnpackSigned(v.major, v.minor);
  }

  /** `fromInt` loses nothing: every `int` is the packing of the version it decodes to. */
  lemma {:induction false} ToIntFromInt(e: Int32)
    ensures ToInt(FromInt(e)) == e
  {
    var v := FromInt(e);
    var u := if e < 0 then e + 0x1_0000_0000 else e;
    SplitHalves(u);
    var q := e / 0x1_0000;
    assert e == q * 0x1_0000 + e % 0x1_0000;
    if e < 0 {
      assert u / 0x1_0000 == q + 0x1_0000;
      assert v.major == q + 0x1_0000;
    } else {
      assert v.major == q;
    }
    assert v.major * 0x1_0000 + v.minor == u;
  }

  /** Hash codes are consistent with `equals`, and distinct versions hash apart. */
  lemma {:induction false} HashCodeMatchesEquals(a: Version, b: Version)
    requires a.Valid() && b.Valid()
    ensures Equals(a, b) <==> HashCode(a) == HashCode(b)
  {
    if HashCode(a) == HashCode(b) {
      FromIntToInt(a);
      FromIntToInt(b);
    }
  }

  // ---------------------------------------------------------------------------------------
  // Ordering and features

  /** `compareTo` is consistent with `equals` and is an antisymmetric, transitive order. */
  lemma {:induction false} CompareIsTotalOrder(a: Version, b: Version, c: Version)
    ensures Compare(a, b) == 0 <==> Equals(a, b)
    ensures Compare(a, b) == -Compare(b, a)
    ensures Compare(a, b) <= 0 && Compare(b, c) <= 0 ==> Compare(a, c) <= 0
  {
  }

  /** For majors below 32768 the packed value orders versions the way `compareTo` does. */
  lemma {:induction false} ToIntOrdersLikeCompare(a: Version, b: Version)
    requires a.Valid() && b.Valid() && a.major < 0x8000 && b.major < 0x8000
    ensures Compare(a, b) < 0 <==> ToInt(a) < ToInt(b)
  {
  }

  /** Each feature test implies the ones that came before it. */
  lemma {:induction false} FeaturesAreCumulative(v: Version)
    requires v.Valid()
    ensures HasSealedClasses(v) ==> HasIndyStringConcat(v)
    ensures HasIndyStringConcat(v) ==> HasLambdas(v)
    ensures HasLambdas(v) ==> HasInvokeDynamic(v)
    ensures HasInvokeDynamic(v) ==> HasEnums(v)
  {
  }

  /** Every test except sealed classes is upward closed in the `compareTo` order. */
  lemma {:induction false} FeaturesAreMonotone(a: Version, b: Version)
    requires Compare(a, b) <= 0
    ensures HasEnums(a) ==> HasEnums(b)
    ensures HasInvokeDynamic(a) ==> HasInvokeDynamic(b)
    ensures HasLambdas(a) ==> HasLambdas(b)
    ensures HasIndyStringConcat(a) ==> HasIndyStringConcat(b)
  {
  }

  /** Sealed classes are a preview feature of 59: the Java 15 preview version has them and the
    * later, non-preview Java 16 version does not. */
  lemma SealedClassesAreNotMonotone()
    ensures Compare(FromInt(VERSION_15_PREVIEW), FromInt(VERSION_16)) < 0
    ensures HasSealedClasses(FromInt(VERSION_15_PREVIEW))
    ensures !HasSealedClasses(FromInt(VERSION_16))
  {
  }

  /** The `VERSION_n` and `VERSION_n_PREVIEW` constants decode to their major with minor 0 and
    * `PREVIEW` respectively. */
  lemma {:induction false} ConstantsDecode(major: int)
    requires MAJOR_1_0_2 <= major <= MAJOR_17
    ensures FromInt(VersionConst(major)) == Version(major, 0)
    ensures FromInt(PreviewConst(major)) == Version(major, PREVIEW)
    ensures ToInt(Version(major, PREVIEW)) == PreviewConst(major)
  {
    UnpackSigned(major, 0);
    UnpackSigned(major, PREVIEW);
  }
}
