/** What a load answers after a store: the bits that were stored, as the load's type reads them. */
module LoadedValues {
  import opened LittleEndian
  import opened PagedMemory
  import opened FlatMemory
  import opened MemoryCode
  import opened Integers

  /** The value an integer load of `n` bytes pushes. */
  function ValueLoaded(m: Mem, kind: Kind, a: nat, n: nat): Loaded<int>
    requires Valid(m) && n > 0
  {
    match LoadOf(m, a, n)
    case Value(raw) => Value(Decoded(kind, n, raw))
    case OutOfBounds => OutOfBounds
  }

  lemma StoredRaw(before: Mem, after: Mem, a: nat, n: nat, v: int)
    requires Wrote(before, after, a, StoredBytes(v, n))
    ensures LoadOf(after, a, n) == Value(v % Two(8 * n))
  {
    TwoBytes(n);
    RoundTrip(v % Pow256(n), n);
    assert Bytes(after)[a..a + n] == StoredBytes(v, n);
  }

  lemma SignedOfRest(v: int, n: nat)
    requires n > 0
    ensures Signed(v % Two(n), n) == Signed(v, n)
  {
    Reduced(v % Two(n), Two(n));
  }

  /**
   * A value stored and loaded at the same width and address comes back modulo
   * that width, as a signed load or a full-width one reads it, or as the
   * number itself.
   */
  lemma LoadsWhatWasStored(before: Mem, after: Mem, kind: Kind, a: nat, n: nat, v: int)
    requires Wrote(before, after, a, StoredBytes(v, n)) && 0 < n && 8 * n <= BitsOf(kind)
    ensures ValueLoaded(after, kind, a, n)
         == Value(if IsSigned(kind) || 8 * n == BitsOf(kind) then Signed(v, 8 * n) else v % Two(8 * n))
  {
    StoredRaw(before, after, a, n, v);
    SignedOfRest(v, 8 * n);
    DecodedIs(kind, n, v % Two(8 * n));
  }

  /** So storing a value of the type at full width and loading it is the identity. */
  lemma RoundTripsInFull(before: Mem, after: Mem, kind: Kind, a: nat, n: nat, v: int)
    requires 0 < n && 8 * n == BitsOf(kind) && 0 - Two(8 * n - 1) <= v < Two(8 * n - 1)
    requires Wrote(before, after, a, StoredBytes(v, n))
    ensures ValueLoaded(after, kind, a, n) == Value(v)
  {
    SignedOnly(v, 8 * n, v);
    LoadsWhatWasStored(before, after, kind, a, n, v);
  }
}
