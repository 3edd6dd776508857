/** zmemcpy. */
module Memory {
  import opened Bits

  method Store(dest: array<byte>, at: nat, bytes: Bytes)
    requires at + |bytes| <= dest.Length
    modifies dest
    ensures dest[..] == old(dest[..at]) + bytes + old(dest[at + |bytes|..])
  {
    var i: nat := 0;
    while i < |bytes|
      invariant i <= |bytes|
      invariant forall k :: 0 <= k < i ==> dest[at + k] == bytes[k]
      invariant forall k :: 0 <= k < at ==> dest[k] == old(dest[k])
      invariant forall k :: at + i <= k < dest.Length ==> dest[k] == old(dest[k])
    {
      dest[at + i] := bytes[i];
      i := i + 1;
    }
  }
}
