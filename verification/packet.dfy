/** A packet buffer: a fixed array of which the first `length` bytes are in use. */
module Packets {

  class Packet {
    var data: array<bv8>
    var length: nat

    ghost predicate Valid()
      reads this
    {
      length <= data.Length
    }

    ghost function Contents(): (s: seq<bv8>)
      requires Valid()
      reads this, data
    {
      data[..length]
    }

    /** A buffer of `size` bytes holding s. */
    constructor (s: seq<bv8>, size: nat)
      requires |s| <= size
      ensures Valid() && fresh(data) && data.Length == size && Contents() == s
    {
      data := new bv8[size];
      length := |s|;
      new;
      forall i | 0 <= i < |s| {
        data[i] := s[i];
      }
    }

    /** memcpy behind the contents. */
    method Append(s: seq<bv8>)
      requires Valid() && length + |s| <= data.Length
      modifies this`length, data
      ensures Valid() && data == old(data) && Contents() == old(Contents()) + s
    {
      forall i | 0 <= i < |s| {
        data[length + i] := s[i];
      }
      length := length + |s|;
    }

    method Strip(n: nat)
      requires Valid() && n <= length
      modifies this`length
      ensures Valid() && Contents() == old(Contents())[..old(length) - n]
    {
      length := length - n;
    }
  }
}
