/** Operation identifiers (include/ctx/op_id.h). */
module OpIds {
  import opened Wrappers

  /** Values of a C++ `unsigned` are taken modulo 2^32. */
  const UintModulus: int := 0x1_0000_0000

  /** A pre-increment of an `unsigned` counter: wraps to 0 after 2^32 - 1. */
  function Successor(n: nat): (r: nat)
    requires n < UintModulus
    ensures r < UintModulus
    ensures n + 1 < UintModulus ==> r == n + 1
    ensures n + 1 == UintModulus ==> r == 0
  {
    (n + 1) % UintModulus
  }

  /** An `op_id`: a name, the creation site (a C string; the defaulted constructor leaves it
      uninitialised, modelled as `None`), the parent's index and the sequence index that the
      scheduler assigns. */
  datatype OpId = OpId(name: string, createdAt: Option<string>, parentIndex: nat, index: nat)

  /** `operator<`: only the sequence index takes part. An id the scheduler has not numbered
      (index 0) is greater than no other id. */
  predicate Less(a: OpId, b: OpId): (r: bool)
    ensures r ==> a != b
    ensures b.index == 0 ==> !r
  {
    a.index < b.index
  }

  /** `op_id() = default`: the members with default initialisers are 0, the name is empty. No
      id compares below it. */
  function Default(): (r: OpId)
    ensures r.parentIndex == 0 && r.createdAt == None
    ensures forall other :: !Less(other, r)
  {
    OpId("", None, 0, 0)
  }

  /** `op_id(char const* created_at)`: the creation site doubles as the name. Until the
      scheduler numbers it, the id compares equal to the default one. */
  function FromSite(createdAt: string): (r: OpId)
    ensures r.name == createdAt && r.createdAt == Some(createdAt) && r.parentIndex == 0
    ensures !Less(r, Default()) && !Less(Default(), r)
  {
    OpId(createdAt, Some(createdAt), 0, 0)
  }

  /** `op_id(std::string name, char const* created_at, int parent_index)`: the `int` argument
      is stored in an `unsigned` member, so a negative parent index wraps around. */
  function Make(name: string, createdAt: string, parentIndex: int): (r: OpId)
    requires -0x8000_0000 <= parentIndex < 0x8000_0000
    ensures r.name == name && r.createdAt == Some(createdAt)
    ensures !Less(r, Default()) && !Less(Default(), r)
    ensures r.parentIndex < UintModulus
    ensures 0 <= parentIndex ==> r.parentIndex == parentIndex
    ensures parentIndex < 0 ==> r.parentIndex == parentIndex + UintModulus
  {
    OpId(name, Some(createdAt), parentIndex % UintModulus, 0)
  }

  /** `operator==`: only the sequence index takes part, so two ids with different names or
      creation sites are equal once their indices agree; this is exactly the equivalence
      induced by `Less`. */
  predicate Equal(a: OpId, b: OpId): (r: bool)
    ensures r <==> !Less(a, b) && !Less(b, a)
  {
    a.index == b.index
  }

  /** `Less` is a strict weak order: irreflexive, transitive, and incomparability (which is
      `Equal`) is transitive, so `op_id` can key a `std::map`. */
  lemma LessIsStrictWeakOrder(a: OpId, b: OpId, c: OpId)
    ensures !Less(a, a)
    ensures Less(a, b) && Less(b, c) ==> Less(a, c)
    ensures Equal(a, b) && Equal(b, c) ==> Equal(a, c)
    ensures Less(a, b) && Equal(b, c) ==> Less(a, c)
  {
  }

  /** Ids built outside the scheduler all share index 0, so they are equal to one another
      whatever their names, sites and parents: a `std::map` keyed by them holds one entry. */
  lemma UnnumberedIdsAreEqual(site: string, name: string, createdAt: string, parentIndex: int)
    requires -0x8000_0000 <= parentIndex < 0x8000_0000
    ensures Equal(Default(), FromSite(site))
    ensures Equal(FromSite(site), Make(name, createdAt, parentIndex))
    ensures Equal(Default(), Make(name, createdAt, parentIndex))
  {
  }

  /** Comparison ignores every member but the index. */
  lemma ComparisonIgnoresAllButIndex(a: OpId, b: OpId, a': OpId, b': OpId)
    requires a'.index == a.index && b'.index == b.index
    ensures Less(a', b') == Less(a, b) && Equal(a', b') == Equal(a, b)
  {
  }
}
