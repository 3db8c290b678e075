/** Octets, big-endian integers and the sequence facts the protocol modules share. */
module Bytes {
  type byte = x: int | 0 <= x < 256

  datatype Option<+T> = None | Some(value: T)

  /** What stands behind this is looked into only where it is mentioned: it keeps a
      large definition folded in proofs that only pass it on, and so does writing
      `P == true` for `P` in a clause. It changes no meaning. */
  ghost predicate Shown(token: int) {
    true
  }

  /** The concatenation of `parts`, in order. */
  function Flatten<T>(parts: seq<seq<T>>): seq<T> {
    if parts == [] then [] else parts[0] + Flatten(parts[1..])
  }

  lemma {:induction false} FlattenConcat<T>(left: seq<seq<T>>, right: seq<seq<T>>)
    ensures Flatten(left + right) == Flatten(left) + Flatten(right)
  {
    if left == [] {
      assert left + right == right;
    } else {
      assert (left + right)[1..] == left[1..] + right;
      FlattenConcat(left[1..], right);
    }
  }

  lemma {:induction false} FlattenAppend<T>(parts: seq<seq<T>>, last: seq<T>)
    ensures Flatten(parts + [last]) == Flatten(parts) + last
  {
    FlattenConcat(parts, [last]);
    assert Flatten([last]) == last + Flatten([last][1..]) == last;
  }

  lemma {:induction false} Regroup<T>(a: seq<T>, b: seq<T>, c: seq<T>)
    ensures (a + b) + c == a + (b + c)
  {
  }

  function Min(a: int, b: int): int {
    if a < b then a else b
  }

  function Max(a: int, b: int): int {
    if a < b then b else a
  }

  /** Two octets in network order. */
  function PutU16(value: nat): seq<byte>
    requires value < 0x1_0000
  {
    [value / 256, value % 256]
  }

  function GetU16(bytes: seq<byte>): nat
    requires |bytes| >= 2
  {
    (bytes[0] as int) * 256 + bytes[1]
  }

  function Pow256(n: nat): nat {
    if n == 0 then 1 else 256 * Pow256(n - 1)
  }

  /** The low `width` octets of `value` in network order. */
  function PutBE(value: nat, width: nat): (bytes: seq<byte>)
    ensures |bytes| == width
  {
    if width == 0 then [] else PutBE(value / 256, width - 1) + [value % 256]
  }

  function GetBE(bytes: seq<byte>): nat {
    if bytes == [] then 0 else GetBE(bytes[..|bytes| - 1]) * 256 + bytes[|bytes| - 1]
  }

  lemma {:induction false} BigEndianRoundTrip(value: nat, width: nat)
    requires value < Pow256(width)
    ensures GetBE(PutBE(value, width)) == value
  {
    if width > 0 {
      BigEndianRoundTrip(value / 256, width - 1);
      assert PutBE(value, width)[..width - 1] == PutBE(value / 256, width - 1);
    }
  }
}
