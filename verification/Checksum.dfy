/**
 * The Internet checksum of section 1 of RFC 1071, over parts that are never
 * assembled: 16-bit words summed across part boundaries in 32 bits, folded, and
 * complemented.
 */
module Checksum {
  import opened Bytes

  const U16: nat := 0x1_0000
  const U32: nat := 0x1_0000_0000
  const ONES: nat := 0xffff

  /** The longest input, in octets, whose word sum is sure to fit 32 bits. */
  const LIMIT: nat := 131074

  // ------------------------------------------------------------ what it means

  function Word(high: byte, low: byte): nat {
    high * 256 + low
  }

  /** The sum of the words, the last octet of an odd run padded with zero. */
  function Sum(bytes: seq<byte>): nat {
    if bytes == [] then 0
    else if |bytes| == 1 then Word(bytes[0], 0)
    else Word(bytes[0], bytes[1]) + Sum(bytes[2..])
  }

  /** Ones' complement folding to 16 bits. */
  function Fold(sum: nat): (folded: nat)
    ensures folded <= ONES
  {
    if sum < U16 then sum else Fold(sum % U16 + sum / U16)
  }

  function ChecksumOf(bytes: seq<byte>): (checksum: nat)
    ensures checksum < U16
  {
    ONES - Fold(Sum(bytes))
  }

  // ------------------------------------------------------------ how it is computed

  /** What a cursor into the parts has yet to yield. */
  ghost function Ahead(parts: seq<seq<byte>>, part: nat, at: nat): seq<byte>
    requires part <= |parts| && (part < |parts| ==> at <= |parts[part]|)
  {
    if part == |parts| then [] else parts[part][at..] + Flatten(parts[part + 1..])
  }

  /** The next octet of the flattened parts, wherever the next part that has one
      begins. */
  method Next(parts: seq<seq<byte>>, part: nat, at: nat) returns (octet: Option<byte>, nextPart: nat, nextAt: nat)
    requires part <= |parts| && (part < |parts| ==> at <= |parts[part]|)
    ensures nextPart <= |parts| && (nextPart < |parts| ==> nextAt <= |parts[nextPart]|)
    ensures octet.None? <==> Ahead(parts, part, at) == []
    ensures octet.None? ==> Ahead(parts, nextPart, nextAt) == []
    ensures octet.Some? ==> Ahead(parts, part, at) == [octet.value] + Ahead(parts, nextPart, nextAt)
  {
    nextPart, nextAt := part, at;
    while nextPart < |parts| && nextAt == |parts[nextPart]|
      invariant nextPart <= |parts| && (nextPart < |parts| ==> nextAt <= |parts[nextPart]|)
      invariant Ahead(parts, nextPart, nextAt) == Ahead(parts, part, at)
      decreases |parts| - nextPart
    {
      assert parts[nextPart + 1..] == if nextPart + 1 == |parts| then [] else [parts[nextPart + 1]] + parts[nextPart + 2..];
      nextPart, nextAt := nextPart + 1, 0;
    }
    if nextPart == |parts| {
      return None, nextPart, nextAt;
    }
    octet := Some(parts[nextPart][nextAt]);
    assert parts[nextPart][nextAt..] == [octet.value] + parts[nextPart][nextAt + 1..];
    nextAt := nextAt + 1;
  }

  /** `checksum`: for inputs up to the limit the 32-bit sum does not wrap, and the
      result is that of the parts' concatenation, however it is cut into parts. */
  method Compute(parts: seq<seq<byte>>) returns (checksum: nat)
    ensures |Flatten(parts)| <= LIMIT ==> checksum == ChecksumOf(Flatten(parts))
  {
    var sum: nat := SumWords(parts);
    while sum / U16 != 0
      invariant |Flatten(parts)| <= LIMIT ==> Fold(sum) == Fold(Sum(Flatten(parts)))
      decreases sum
    {
      sum := sum % U16 + sum / U16;
    }
    checksum := ONES - sum;
  }

  /** Addition in 32 bits. */
  function Added(sum: nat, word: nat): (total: nat)
    ensures sum + word < U32 ==> total == sum + word
  {
    (sum + word) % U32
  }

  /** The next two octets as a word, or the last one padded. */
  method NextWord(parts: seq<seq<byte>>, part: nat, at: nat) returns (word: Option<nat>, nextPart: nat, nextAt: nat)
    requires part <= |parts| && (part < |parts| ==> at <= |parts[part]|)
    ensures nextPart <= |parts| && (nextPart < |parts| ==> nextAt <= |parts[nextPart]|)
    ensures word.None? <==> Ahead(parts, part, at) == []
    ensures word.None? ==> Ahead(parts, nextPart, nextAt) == []
    ensures word.Some? ==>
              && |Ahead(parts, nextPart, nextAt)| < |Ahead(parts, part, at)|
              && Sum(Ahead(parts, part, at)) == word.value + Sum(Ahead(parts, nextPart, nextAt))
  {
    ghost var ahead := Ahead(parts, part, at);
    var high, low;
    high, nextPart, nextAt := Next(parts, part, at);
    word := None;
    if high.Some? {
      low, nextPart, nextAt := Next(parts, nextPart, nextAt);
      word := Some(Word(high.value, if low.Some? then low.value else 0));
      assert ahead[0] == high.value && (low.Some? ==> ahead[1] == low.value);
      assert low.Some? ==> ahead[2..] == Ahead(parts, nextPart, nextAt);
    }
  }

  method SumWords(parts: seq<seq<byte>>) returns (sum: nat)
    ensures |Flatten(parts)| <= LIMIT ==> sum == Sum(Flatten(parts))
  {
    AheadOfAll(parts);
    SumFits(Flatten(parts));
    var part: nat, at: nat := 0, 0;
    sum := 0;
    var word;
    word, part, at := NextWord(parts, part, at);
    while word.Some?
      invariant part <= |parts| && (part < |parts| ==> at <= |parts[part]|)
      invariant word.None? ==> Sum(Ahead(parts, part, at)) == 0
      invariant |Flatten(parts)| <= LIMIT ==>
                  sum + (if word.Some? then word.value else 0) + Sum(Ahead(parts, part, at)) == Sum(Flatten(parts))
      decreases word.Some?, |Ahead(parts, part, at)|
    {
      sum := Added(sum, word.value);
      word, part, at := NextWord(parts, part, at);
    }
  }

  lemma {:induction false} AheadOfAll(parts: seq<seq<byte>>)
    ensures Ahead(parts, 0, 0) == Flatten(parts)
  {
    if parts != [] {
      assert parts[0][0..] == parts[0];
    }
  }

  lemma {:induction false} SumBound(bytes: seq<byte>)
    ensures Sum(bytes) <= ONES * ((|bytes| + 1) / 2)
  {
    if |bytes| > 1 {
      SumBound(bytes[2..]);
    }
  }

  /** No input within the limit can wrap the 32-bit sum. */
  lemma {:induction false} SumFits(bytes: seq<byte>)
    ensures |bytes| <= LIMIT ==> Sum(bytes) < U32
  {
    SumBound(bytes);
  }

  /** The limit is exact: one octet more, all of them ones, and the sum does not
      fit. */
  lemma {:induction false} LimitIsExact(bytes: seq<byte>)
    requires |bytes| == LIMIT + 1 && forall i :: 0 <= i < |bytes| ==> bytes[i] == 255
    ensures Sum(bytes) >= U32
  {
    SumOfOnes(bytes);
  }

  lemma {:induction false} SumOfOnes(bytes: seq<byte>)
    requires forall i :: 0 <= i < |bytes| ==> bytes[i] == 255
    ensures Sum(bytes) == ONES * (|bytes| / 2) + if |bytes| % 2 == 1 then 0xff00 else 0
  {
    if |bytes| > 1 {
      SumOfOnes(bytes[2..]);
    }
  }

  // ------------------------------------------------------------ why it verifies

  /** Folding is the remainder modulo 65535, with 65535 itself standing for the
      positive multiples. */
  lemma {:induction false} FoldIs(sum: nat)
    ensures Fold(sum) == if sum == 0 then 0 else 1 + (sum - 1) % ONES
  {
    if sum >= U16 {
      var folded := sum % U16 + sum / U16;
      assert folded == sum - ONES * (sum / U16);
      FoldIs(folded);
      SameRemainder(folded - 1, sum / U16);
    }
  }

  lemma {:induction false} SameRemainder(n: nat, times: nat)
    ensures (n + ONES * times) % ONES == n % ONES
  {
    if times > 0 {
      SameRemainder(n, times - 1);
      assert n + ONES * times == (n + ONES * (times - 1)) + ONES;
    }
  }

  lemma {:induction false} SumConcat(left: seq<byte>, right: seq<byte>)
    requires |left| % 2 == 0
    ensures Sum(left + right) == Sum(left) + Sum(right)
  {
    if left == [] {
      assert left + right == right;
    } else {
      assert (left + right)[2..] == left[2..] + right;
      SumConcat(left[2..], right);
    }
  }

  /** A sum and the complement of its fold come to a positive multiple of 65535. */
  lemma {:induction false} ComplementCancels(sum: nat)
    ensures Fold(sum + (ONES - Fold(sum))) == ONES
  {
    FoldIs(sum);
    FoldIs(sum + (ONES - Fold(sum)));
    if sum > 0 {
      var times := (sum - 1) / ONES;
      assert sum - 1 == ONES * times + (sum - 1) % ONES;
      SameRemainder(ONES - 1, times);
    }
  }

  /** Stored in an even-aligned field that was zero, the checksum makes the
      checksum of the whole zero. */
  lemma {:induction false} StoredChecksumVerifies(before: seq<byte>, after: seq<byte>)
    requires |before| % 2 == 0
    ensures var checksum := ChecksumOf(before + [0, 0] + after);
            ChecksumOf(before + PutU16(checksum) + after) == 0
  {
    var checksum := ChecksumOf(before + [0, 0] + after);
    FieldHolds(checksum);
    FieldCancels(before, PutU16(checksum), after);
  }

  lemma {:induction false} FieldCancels(before: seq<byte>, field: seq<byte>, after: seq<byte>)
    requires |before| % 2 == 0 && |field| == 2
    requires Word(field[0], field[1]) == ChecksumOf(before + [0, 0] + after)
    ensures ChecksumOf(before + field + after) == 0
  {
    SumField(before, [0, 0], after);
    SumField(before, field, after);
    ComplementCancels(Sum(before) + Sum(after));
  }

  lemma {:induction false} FieldHolds(value: nat)
    requires value < U16
    ensures |PutU16(value)| == 2 && Word(PutU16(value)[0], PutU16(value)[1]) == value
  {
  }

  lemma {:induction false} SumField(before: seq<byte>, field: seq<byte>, after: seq<byte>)
    requires |before| % 2 == 0 && |field| == 2
    ensures Sum(before + field + after) == Sum(before) + Word(field[0], field[1]) + Sum(after)
  {
    SumConcat(before + field, after);
    SumConcat(before, field);
    assert Sum(field) == Word(field[0], field[1]) + Sum(field[2..]);
  }
}
