/** The region rebuild message of an instanced map and its hand-written
    `equals` and `hashCode`. Kotlin arrays become sequences: the message never
    changes them after it is built, so only their contents matter, except for
    the identity hash that `hashCode` takes of `chunks`. */
module RebuildRegionMessages {
  import opened Common

  datatype RebuildRegionMessage = RebuildRegionMessage(
    chunkX: int,
    chunkZ: int,
    forceReload: int,
    mapSize: int,
    chunks: seq<int>,
    xteas: seq<seq<int>>,
    playerIndex: Option<int>,
    playerTile: Option<int>,
    playerRegions: Option<seq<int>>)

  /** The `other: Any?` argument of `equals`: `null`, a message object at
      reference `ref`, or an object of some other class. */
  datatype Any = Null | Message(ref: nat, msg: RebuildRegionMessage) | OtherObject(ref: nat)

  /** `IntArray.contentEquals`. */
  predicate ContentEquals(a: seq<int>, b: seq<int>) {
    |a| == |b| && forall i :: 0 <= i < |a| ==> a[i] == b[i]
  }

  /** `Array<IntArray>.contentDeepEquals`. */
  predicate ContentDeepEquals(a: seq<seq<int>>, b: seq<seq<int>>) {
    |a| == |b| && forall i :: 0 <= i < |a| ==> ContentEquals(a[i], b[i])
  }

  /** The `playerRegions` comparison: both null, or both present with equal
      contents. */
  predicate NullableContentEquals(a: Option<seq<int>>, b: Option<seq<int>>) {
    if a.Some? then b.Some? && ContentEquals(a.value, b.value) else b.None?
  }

  /** The chain of field comparisons of `equals` after the identity and class
      checks. */
  predicate FieldsEqual(a: RebuildRegionMessage, b: RebuildRegionMessage) {
    && a.chunkX == b.chunkX
    && a.chunkZ == b.chunkZ
    && a.forceReload == b.forceReload
    && a.mapSize == b.mapSize
    && ContentEquals(a.chunks, b.chunks)
    && ContentDeepEquals(a.xteas, b.xteas)
    && a.playerIndex == b.playerIndex
    && a.playerTile == b.playerTile
    && NullableContentEquals(a.playerRegions, b.playerRegions)
  }

  /** `equals` of the message stored at reference `selfRef`. */
  function Equals(selfRef: nat, self: RebuildRegionMessage, other: Any): (r: bool)
    ensures other.Message? && other.ref == selfRef ==> r
    ensures !other.Message? ==> !r
    ensures other.Message? && other.ref != selfRef ==> (r <==> self == other.msg)
  {
    if other.Message? && other.ref == selfRef then true
    else if !other.Message? then false
    else
      FieldsEqualIsValueEquality(self, other.msg);
      FieldsEqual(self, other.msg)
  }

  lemma ContentEqualsIsEquality(a: seq<int>, b: seq<int>)
    ensures ContentEquals(a, b) <==> a == b
  {
    if ContentEquals(a, b) {
      assert a == b;
    }
  }

  lemma {:induction false} ContentDeepEqualsIsEquality(a: seq<seq<int>>, b: seq<seq<int>>)
    ensures ContentDeepEquals(a, b) <==> a == b
  {
    if ContentDeepEquals(a, b) {
      forall i | 0 <= i < |a| ensures a[i] == b[i] {
        ContentEqualsIsEquality(a[i], b[i]);
      }
      assert a == b;
    }
  }

  /** The field comparisons of `equals` amount to equality of the message
      values: arrays are compared by content, never by reference. */
  lemma {:induction false} FieldsEqualIsValueEquality(a: RebuildRegionMessage, b: RebuildRegionMessage)
    ensures FieldsEqual(a, b) <==> a == b
  {
    ContentEqualsIsEquality(a.chunks, b.chunks);
    ContentDeepEqualsIsEquality(a.xteas, b.xteas);
    if a.playerRegions.Some? && b.playerRegions.Some? {
      ContentEqualsIsEquality(a.playerRegions.value, b.playerRegions.value);
    }
  }

  /** Two message objects are `equals` exactly when they are the same
      object or hold the same contents (a consistent heap: one reference,
      one message). */
  lemma EqualsIffSameContents(r1: nat, m1: RebuildRegionMessage, r2: nat, m2: RebuildRegionMessage)
    requires r1 == r2 ==> m1 == m2
    ensures Equals(r1, m1, Message(r2, m2)) <==> m1 == m2
  {
    FieldsEqualIsValueEquality(m1, m2);
  }

  /** A distinct object holding the same contents is `equals` to it. */
  lemma EqualsReflexive(r1: nat, r2: nat, m: RebuildRegionMessage)
    ensures Equals(r1, m, Message(r2, m))
  {
    FieldsEqualIsValueEquality(m, m);
  }

  lemma EqualsSymmetric(r1: nat, m1: RebuildRegionMessage, r2: nat, m2: RebuildRegionMessage)
    ensures Equals(r1, m1, Message(r2, m2)) == Equals(r2, m2, Message(r1, m1))
  {
    FieldsEqualIsValueEquality(m1, m2);
    FieldsEqualIsValueEquality(m2, m1);
  }

  lemma EqualsTransitive(r1: nat, m1: RebuildRegionMessage, r2: nat, m2: RebuildRegionMessage,
                         r3: nat, m3: RebuildRegionMessage)
    requires r1 == r2 ==> m1 == m2
    requires r2 == r3 ==> m2 == m3
    requires r1 == r3 ==> m1 == m3
    requires Equals(r1, m1, Message(r2, m2)) && Equals(r2, m2, Message(r3, m3))
    ensures Equals(r1, m1, Message(r3, m3))
  {
    EqualsIffSameContents(r1, m1, r2, m2);
    EqualsIffSameContents(r2, m2, r3, m3);
    EqualsIffSameContents(r1, m1, r3, m3);
  }

  // -----------------------------------------------------------------------
  // hashCode
  // -----------------------------------------------------------------------

  /** One step of the 31-multiplier fold, in 32-bit arithmetic. */
  function Mix(acc: int, v: int): int {
    Wrap32(31 * acc + v)
  }

  /** `IntArray.contentHashCode` (`java.util.Arrays.hashCode`): the fold
      starts at 1. */
  function ContentHashCode(a: seq<int>): (h: int)
    ensures IsInt32(h)
  {
    if a == [] then 1 else Mix(ContentHashCode(a[..|a| - 1]), a[|a| - 1])
  }

  /** `Array<IntArray>.contentDeepHashCode`: each element contributes its
      content hash. */
  function ContentDeepHashCode(a: seq<seq<int>>): (h: int)
    ensures IsInt32(h)
  {
    if a == [] then 1 else Mix(ContentDeepHashCode(a[..|a| - 1]), ContentHashCode(a[|a| - 1]))
  }

  function OrZero(v: Option<int>): int {
    if v.Some? then v.value else 0
  }

  /** `hashCode` as written: `chunks` contributes `chunksIdentityHash`, the
      identity hash of the array object, which the message's contents do not
      determine. */
  function HashCodeAsWritten(m: RebuildRegionMessage, chunksIdentityHash: int): (h: int)
    ensures IsInt32(h)
  {
    HashFold(m, chunksIdentityHash)
  }

  /** `hashCode` with `chunks` hashed by content, as every other array field
      is: the version whose hash agrees with `equals`. */
  function HashCode(m: RebuildRegionMessage): (h: int)
    ensures IsInt32(h)
  {
    HashFold(m, ContentHashCode(m.chunks))
  }

  /** The fold over the fields, given the contribution of `chunks`. Null
      nullable fields contribute 0. */
  function HashFold(m: RebuildRegionMessage, chunksHash: int): (h: int)
    ensures IsInt32(h)
  {
    var r0 := Wrap32(m.chunkX);
    var r1 := Mix(r0, m.chunkZ);
    var r2 := Mix(r1, m.forceReload);
    var r3 := Mix(r2, m.mapSize);
    var r4 := Mix(r3, chunksHash);
    var r5 := Mix(r4, ContentDeepHashCode(m.xteas));
    var r6 := Mix(r5, OrZero(m.playerIndex));
    var r7 := Mix(r6, OrZero(m.playerTile));
    Mix(r7, if m.playerRegions.Some? then ContentHashCode(m.playerRegions.value) else 0)
  }

  /** As written, two message objects that are `equals` (one message value
      at two references whose `chunks` arrays are distinct objects with
      identity hashes 0 and 1) have different hash codes. */
  lemma HashCodeAsWrittenBreaksEquals()
    ensures var m := RebuildRegionMessage(0, 0, 0, 0, [], [], None, None, None);
            Equals(1, m, Message(2, m)) && HashCodeAsWritten(m, 0) != HashCodeAsWritten(m, 1)
  {
    var m := RebuildRegionMessage(0, 0, 0, 0, [], [], None, None, None);
    EqualsReflexive(1, 2, m);
    assert HashCodeAsWritten(m, 0) == 29791;
    assert HashCodeAsWritten(m, 1) == 953312;
  }

  /** With `chunks` hashed by content, objects that are `equals` have equal
      hash codes. */
  lemma HashCodeAgreesWithEquals(r1: nat, m1: RebuildRegionMessage, r2: nat, m2: RebuildRegionMessage)
    requires r1 == r2 ==> m1 == m2
    requires Equals(r1, m1, Message(r2, m2))
    ensures HashCode(m1) == HashCode(m2)
  {
    EqualsIffSameContents(r1, m1, r2, m2);
  }

  /** A null `playerIndex` contributes 0 to the hash, the same as a
      `playerIndex` of 0. */
  lemma HashCodeNullContributesZero(m: RebuildRegionMessage)
    requires m.playerIndex.None?
    ensures HashCode(m) == HashCode(m.(playerIndex := Some(0)))
  {
  }
}
