/** Comparison and hashing of versions, over librpm's `rpmvercmp` and Ruby's string hash as parameters. */
module VersionOrder {
  import opened Outcomes
  import opened CText
  import opened VersionText

  type SegmentOrder = (string, string) -> int

  /** What librpm promises of `rpmvercmp`: both directions agree, and `<=` is transitive. */
  ghost predicate TotalPreorder(cmp: SegmentOrder) {
    && (forall a, b :: cmp(a, b) < 0 <==> cmp(b, a) > 0)
    && (forall a, b, c :: cmp(a, b) <= 0 && cmp(b, c) <= 0 ==> cmp(a, c) <= 0)
  }

  /** `rpm_version_cmp`; the version string of an initialised object is never nil. */
  function Cmp(rpmvercmp: SegmentOrder, ver: Version, other: Version): int {
    if ver.e.Some? && ver.e.value > 0 && other.e.None? then 1
    else if ver.e.None? && other.e.Some? && other.e.value > 0 then -1
    else if ver.e.Some? && other.e.Some? && ver.e.value < other.e.value then -1
    else if ver.e.Some? && other.e.Some? && ver.e.value > other.e.value then 1
    else
      var sense := rpmvercmp(ver.v, other.v);
      if sense != 0 then sense
      else if ver.r.Some? && other.r.None? then 1
      else if ver.r.None? && other.r.Some? then -1
      else if ver.r.Some? && other.r.Some? then rpmvercmp(ver.r.value, other.r.value)
      else sense
  }

  predicate IsNewer(rpmvercmp: SegmentOrder, ver: Version, other: Version) {
    Cmp(rpmvercmp, ver, other) > 0
  }

  predicate IsOlder(rpmvercmp: SegmentOrder, ver: Version, other: Version) {
    !IsNewer(rpmvercmp, ver, other)
  }

  // ---------- the order meant ----------

  function EpochOf(ver: Version): nat {
    if ver.e.Some? then ver.e.value else 0
  }

  /** An absent release sorts before every release. */
  ghost predicate ReleaseBelow(cmp: SegmentOrder, r: Option<string>, s: Option<string>) {
    s.Some? && (r.Some? ==> cmp(r.value, s.value) < 0)
  }

  /** Lexicographic order on epoch (absent counts as 0), version and release. */
  ghost predicate Below(cmp: SegmentOrder, a: Version, b: Version) {
    || EpochOf(a) < EpochOf(b)
    || (EpochOf(a) == EpochOf(b) && cmp(a.v, b.v) < 0)
    || (EpochOf(a) == EpochOf(b) && cmp(a.v, b.v) == 0 && ReleaseBelow(cmp, a.r, b.r))
  }

  lemma CmpIsLexicographic(cmp: SegmentOrder, a: Version, b: Version)
    requires TotalPreorder(cmp)
    ensures Cmp(cmp, a, b) < 0 <==> Below(cmp, a, b)
    ensures Cmp(cmp, a, b) > 0 <==> Below(cmp, b, a)
  {
    assert cmp(a.v, b.v) < 0 <==> cmp(b.v, a.v) > 0;
    assert cmp(b.v, a.v) < 0 <==> cmp(a.v, b.v) > 0;
    if a.r.Some? && b.r.Some? {
      assert cmp(b.r.value, a.r.value) < 0 <==> cmp(a.r.value, b.r.value) > 0;
    }
  }

  lemma SegmentsTransitive(cmp: SegmentOrder, a: string, b: string, c: string)
    requires TotalPreorder(cmp)
    ensures cmp(a, b) <= 0 && cmp(b, c) <= 0 ==> cmp(a, c) <= 0
    ensures cmp(a, b) <= 0 && cmp(b, c) <= 0 && cmp(a, c) == 0 ==> cmp(a, b) == 0 && cmp(b, c) == 0
  {
    if cmp(a, b) <= 0 && cmp(b, c) <= 0 && cmp(a, c) == 0 {
      assert cmp(c, a) == 0;
      assert cmp(b, a) <= 0 && cmp(c, b) <= 0;
    }
  }

  /** `<=>` is a total preorder: reflexive, the same seen from both sides, and transitive. */
  lemma CmpTotalPreorder(cmp: SegmentOrder, a: Version, b: Version, c: Version)
    requires TotalPreorder(cmp)
    ensures Cmp(cmp, a, a) == 0
    ensures Cmp(cmp, a, b) < 0 <==> Cmp(cmp, b, a) > 0
    ensures Cmp(cmp, a, b) <= 0 && Cmp(cmp, b, c) <= 0 ==> Cmp(cmp, a, c) <= 0
  {
    CmpIsLexicographic(cmp, a, b);
    CmpIsLexicographic(cmp, b, a);
    assert cmp(a.v, a.v) < 0 <==> cmp(a.v, a.v) > 0;
    if Cmp(cmp, a, b) <= 0 && Cmp(cmp, b, c) <= 0 {
      SegmentsTransitive(cmp, a.v, b.v, c.v);
      if a.r.Some? && b.r.Some? && c.r.Some? {
        SegmentsTransitive(cmp, a.r.value, b.r.value, c.r.value);
      }
    }
  }

  /** `newer?` is a strict weak order, and `older?` is its complement: it holds between equal versions. */
  lemma NewerStrictWeakOrder(cmp: SegmentOrder, a: Version, b: Version, c: Version)
    requires TotalPreorder(cmp)
    ensures !IsNewer(cmp, a, a)
    ensures IsNewer(cmp, a, b) ==> !IsNewer(cmp, b, a)
    ensures IsNewer(cmp, a, b) && IsNewer(cmp, b, c) ==> IsNewer(cmp, a, c)
    ensures IsNewer(cmp, a, c) ==> IsNewer(cmp, a, b) || IsNewer(cmp, b, c)
    ensures IsOlder(cmp, a, b) <==> Cmp(cmp, a, b) <= 0
    ensures IsOlder(cmp, a, b) && IsOlder(cmp, b, a) <==> Cmp(cmp, a, b) == 0
  {
    CmpTotalPreorder(cmp, a, b, c);
    CmpTotalPreorder(cmp, b, a, c);
    CmpTotalPreorder(cmp, b, c, a);
    CmpTotalPreorder(cmp, c, a, b);
    CmpTotalPreorder(cmp, c, b, a);
  }

  // ---------- hashing ----------

  /** One step of the hash: shift left by one bit, exclusive or with the next word. */
  function Mix(h: bv64, word: bv64): bv64 {
    (h << 1) ^ word
  }

  /** An absent epoch starts the hash at 0. */
  function EpochWord(e: Option<Epoch>): bv64 {
    if e.None? then 0 else e.value as bv64
  }

  /** `rpm_version_hash` on 64-bit words. */
  function Hash(rb_hash: Option<string> -> bv64, ver: Version): bv64 {
    Mix(Mix(EpochWord(ver.e), rb_hash(ver.r)), rb_hash(Some(ver.v)))
  }

  /** The hash in closed form: epoch (absent as 0), release and version text, shifted by two, one and no bits. */
  lemma HashMixesAll(rb_hash: Option<string> -> bv64, v: string, r: Option<string>, e: Option<Epoch>)
    ensures Hash(rb_hash, Version(v, r, e)) == (EpochWord(e) << 2) ^ (rb_hash(r) << 1) ^ rb_hash(Some(v))
  {
    MixTwice(EpochWord(e), rb_hash(r), rb_hash(Some(v)));
  }

  lemma EpochStartsHash(e: Epoch)
    ensures EpochWord(Some(e)) == e as bv64 && EpochWord(None) == 0
  {
  }

  lemma MixTwice(h: bv64, first: bv64, second: bv64)
    ensures Mix(Mix(h, first), second) == (h << 2) ^ (first << 1) ^ second
  {
  }

  /** Only the version, the release and the epoch with absent as 0 enter the hash. */
  lemma HashReads(rb_hash: Option<string> -> bv64, a: Version, b: Version)
    requires a.v == b.v && a.r == b.r && EpochOf(a) == EpochOf(b)
    ensures Hash(rb_hash, a) == Hash(rb_hash, b)
  {
    if a.e.None? && b.e.Some? {
      assert b.e.value as bv64 == 0;
    } else if a.e.Some? && b.e.None? {
      assert a.e.value as bv64 == 0;
    }
  }

  /** Versions that compare equal and are written alike hash alike, also when only one of them has an epoch. */
  lemma EqualTextEqualHash(cmp: SegmentOrder, rb_hash: Option<string> -> bv64, a: Version, b: Version)
    requires TotalPreorder(cmp)
    requires Cmp(cmp, a, b) == 0 && a.v == b.v && a.r == b.r
    ensures Hash(rb_hash, a) == Hash(rb_hash, b)
  {
    CmpIsLexicographic(cmp, a, b);
    HashReads(rb_hash, a, b);
  }

  /** Writing an epoch of zero, or an empty one, in front of a text without epoch changes neither order nor hash. */
  lemma ZeroEpochIsNoEpoch(cmp: SegmentOrder, rb_hash: Option<string> -> bv64, s: string, zero: string)
    requires TotalPreorder(cmp) && !EpochLike(s)
    requires zero == "" || zero == "0"
    ensures New(s).Ok? && New(zero + ":" + s).Ok?
    ensures New(s).value.e == None && New(zero + ":" + s).value.e == Some(0)
    ensures Cmp(cmp, New(s).value, New(zero + ":" + s).value) == 0
    ensures Hash(rb_hash, New(s).value) == Hash(rb_hash, New(zero + ":" + s).value)
  {
    ZeroEpochText(s, zero);
    var a, b := New(s).value, New(zero + ":" + s).value;
    HashReads(rb_hash, a, b);
    EpochDropped(cmp, b);
  }

  lemma ZeroEpochText(s: string, zero: string)
    requires !EpochLike(s) && (zero == "" || zero == "0")
    ensures New(s).Ok? && New(zero + ":" + s).Ok?
    ensures New(s).value == New(zero + ":" + s).value.(e := None) && New(zero + ":" + s).value.e == Some(0)
  {
    EpochPrefix(zero, s);
    NewSucceeds(s);
    NewSucceeds(zero + ":" + s);
    assert DecimalValue(zero) == 0;
    assert AfterEpoch(s) == s;
  }

  lemma EpochDropped(cmp: SegmentOrder, ver: Version)
    requires TotalPreorder(cmp) && ver.e == Some(0)
    ensures Cmp(cmp, ver.(e := None), ver) == 0
  {
    assert cmp(ver.v, ver.v) < 0 <==> cmp(ver.v, ver.v) > 0;
    if ver.r.Some? {
      assert cmp(ver.r.value, ver.r.value) < 0 <==> cmp(ver.r.value, ver.r.value) > 0;
    }
  }
}
