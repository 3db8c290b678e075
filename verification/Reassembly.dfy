/**
 * Reassembly of one datagram from its fragments: data placed by offset, a bitmap
 * of the 8-octet blocks received and a count of them, and a datagram poisoned by
 * the first contradiction (RFC 5722, section 4.5 of RFC 8200).
 */
module Reassembly {
  import opened Bytes

  const MAX_DATAGRAM: nat := 65535
  const BLOCKS: nat := 8192

  /** The headers a fragment came with, and where they name what follows them. */
  datatype Headers = Headers(bytes: seq<byte>, nextHeaderAt: nat)

  datatype Fragment = Fragment(offset: nat, more: bool, headers: Headers, payload: seq<byte>)

  function Extent(fragment: Fragment): nat {
    fragment.offset + |fragment.payload|
  }

  /** The wire gives an offset in whole blocks. */
  predicate Aligned(fragment: Fragment) {
    fragment.offset % 8 == 0
  }

  /** A fragment worth looking at: it carries something, fits a datagram, and is
      made of whole blocks unless it is the last. */
  predicate Formed(fragment: Fragment) {
    && fragment.payload != []
    && Extent(fragment) <= MAX_DATAGRAM
    && (fragment.more ==> |fragment.payload| % 8 == 0)
  }

  function First(fragment: Fragment): nat {
    fragment.offset / 8
  }

  function Last(fragment: Fragment): nat
    requires fragment.payload != []
  {
    (Extent(fragment) - 1) / 8
  }

  predicate Apart(left: Fragment, right: Fragment)
    requires left.payload != [] && right.payload != []
  {
    Last(left) < First(right) || Last(right) < First(left)
  }

  datatype Datagram = Datagram(headers: Headers, data: seq<byte>)

  datatype Outcome<T> = Pending | Discarded | Complete(value: T)

  // ------------------------------------------------------------ counting blocks

  function Count(bits: seq<bool>, n: nat): (count: nat)
    requires n <= |bits|
    ensures count <= n
  {
    if n == 0 then 0 else Count(bits, n - 1) + if bits[n - 1] then 1 else 0
  }

  lemma {:induction false} CountSet(bits: seq<bool>, b: nat, n: nat)
    requires b < |bits| && n <= |bits| && !bits[b]
    ensures Count(bits[b := true], n) == Count(bits, n) + if b < n then 1 else 0
  {
    if n > 0 {
      CountSet(bits, b, n - 1);
    }
  }

  /** A full count is every bit, and bits beyond do not matter when unset. */
  lemma {:induction false} CountFull(bits: seq<bool>, n: nat, end: nat)
    requires n <= end <= |bits|
    requires forall b :: n <= b < end ==> !bits[b]
    ensures Count(bits, end) == n <==> forall b :: 0 <= b < n ==> bits[b]
    decreases end
  {
    if n < end {
      CountFull(bits, n, end - 1);
    } else {
      CountAll(bits, n);
    }
  }

  lemma {:induction false} CountAll(bits: seq<bool>, n: nat)
    requires n <= |bits|
    ensures Count(bits, n) == n <==> forall b :: 0 <= b < n ==> bits[b]
  {
    if n > 0 {
      CountAll(bits, n - 1);
    }
  }

  // ------------------------------------------------------------ what was placed

  function Zeros(n: nat): seq<byte> {
    seq(n, i => 0)
  }

  /** The data with the payload copied in, grown with zeros to reach it. */
  function Overlaid(data: seq<byte>, fragment: Fragment): (next: seq<byte>)
    ensures |next| == Max(|data|, Extent(fragment))
  {
    var grown := if Extent(fragment) > |data| then data + Zeros(Extent(fragment) - |data|) else data;
    grown[..fragment.offset] + fragment.payload + grown[Extent(fragment)..]
  }

  ghost predicate Placed(data: seq<byte>, fragment: Fragment) {
    Extent(fragment) <= |data| && data[fragment.offset..Extent(fragment)] == fragment.payload
  }

  lemma {:induction false} OverlayPlaces(data: seq<byte>, fragment: Fragment)
    ensures Placed(Overlaid(data, fragment), fragment)
  {
  }

  lemma {:induction false} OverlayKeeps(data: seq<byte>, fragment: Fragment, other: Fragment)
    requires Aligned(fragment) && Aligned(other) && Formed(fragment) && Formed(other) && Apart(fragment, other)
    requires Placed(data, other)
    ensures Placed(Overlaid(data, fragment), other)
  {
    assert Extent(fragment) <= other.offset || Extent(other) <= fragment.offset;
    var next := Overlaid(data, fragment);
    assert forall i :: other.offset <= i < Extent(other) ==> next[i] == data[i];
    assert next[other.offset..Extent(other)] == data[other.offset..Extent(other)];
  }

  /** The fragments kept: formed, placed where they belong, no two in one block,
      the last one, if it came, at the end of the data. */
  ghost predicate Kept(data: seq<byte>, total: Option<nat>, fragment: Fragment) {
    && Aligned(fragment) && Formed(fragment)
    && Placed(data, fragment)
    && (total.None? ==> fragment.more)
    && (!fragment.more ==> total == Some(Extent(fragment)))
  }

  ghost predicate AllKept(data: seq<byte>, total: Option<nat>, kept: seq<Fragment>) {
    && (forall i :: 0 <= i < |kept| ==> Kept(data, total, kept[i]))
    && (forall i, j :: 0 <= i < j < |kept| ==> Apart(kept[i], kept[j]))
  }

  ghost predicate InBlock(fragment: Fragment, b: nat) {
    fragment.payload != [] && First(fragment) <= b <= Last(fragment)
  }

  ghost predicate Reaches(kept: seq<Fragment>, b: nat) {
    exists i :: 0 <= i < |kept| && InBlock(kept[i], b)
  }

  /** The bitmap is the blocks of the fragments kept. */
  ghost predicate Mapped(received: seq<bool>, kept: seq<Fragment>) {
    |received| == BLOCKS && forall b :: 0 <= b < BLOCKS ==> (received[b] <==> Reaches(kept, b))
  }

  /** The data ends where the furthest fragment does. */
  ghost predicate Tight(data: seq<byte>, kept: seq<Fragment>) {
    data != [] ==> exists i :: 0 <= i < |kept| && Extent(kept[i]) == |data|
  }

  // ------------------------------------------------------------ when it is whole

  ghost predicate CoversOctet(kept: seq<Fragment>, at: nat) {
    exists i :: 0 <= i < |kept| && kept[i].offset <= at < Extent(kept[i])
  }

  /** Every octet of the datagram is in some fragment. */
  ghost predicate Covers(kept: seq<Fragment>, length: nat) {
    forall at :: 0 <= at < length ==> CoversOctet(kept, at)
  }

  function BlockCount(length: nat): nat {
    (length + 7) / 8
  }

  /** No fragment reaches a block past the end. */
  lemma {:induction false} NothingBeyond(data: seq<byte>, total: Option<nat>, kept: seq<Fragment>, b: nat)
    requires AllKept(data, total, kept) && BlockCount(|data|) <= b
    ensures !Reaches(kept, b)
  {
    forall i | 0 <= i < |kept|
      ensures !InBlock(kept[i], b)
    {
      assert Kept(data, total, kept[i]);
    }
  }

  lemma {:induction false} WholeBlock(fragment: Fragment, at: nat)
    requires Aligned(fragment) && Formed(fragment) && InBlock(fragment, at / 8)
    ensures fragment.offset <= at
    ensures fragment.more ==> at < Extent(fragment)
  {
    var start, count := fragment.offset / 8, |fragment.payload| / 8;
    assert fragment.offset == 8 * start;
    assert fragment.more ==> |fragment.payload| == 8 * count;
  }

  /** A block reached by a fragment has all its octets in it: a fragment is made
      of whole blocks, or ends with the datagram. */
  lemma {:induction false} BlockCovers(data: seq<byte>, total: Option<nat>, kept: seq<Fragment>, at: nat)
    requires AllKept(data, total, kept) && total == Some(|data|) && at < |data| && Reaches(kept, at / 8)
    ensures CoversOctet(kept, at)
  {
    var i :| 0 <= i < |kept| && InBlock(kept[i], at / 8);
    assert Kept(data, total, kept[i]);
    WholeBlock(kept[i], at);
  }

  lemma {:induction false} OctetReaches(kept: seq<Fragment>, b: nat)
    requires (forall i :: 0 <= i < |kept| ==> Formed(kept[i])) && CoversOctet(kept, 8 * b)
    ensures Reaches(kept, b)
  {
    var i :| 0 <= i < |kept| && kept[i].offset <= 8 * b < Extent(kept[i]);
    assert Formed(kept[i]) && InBlock(kept[i], b);
  }

  /** The count says the datagram is whole exactly when every octet is there. */
  lemma {:induction false} CountTellsWhole(data: seq<byte>, total: Option<nat>, kept: seq<Fragment>, received: seq<bool>)
    requires AllKept(data, total, kept) && Mapped(received, kept) && total == Some(|data|) && |data| <= MAX_DATAGRAM
    ensures Count(received, BLOCKS) == BlockCount(|data|) <==> Covers(kept, |data|)
  {
    var n := BlockCount(|data|);
    forall b | n <= b < BLOCKS
      ensures !received[b]
    {
      NothingBeyond(data, total, kept, b);
    }
    CountFull(received, n, BLOCKS);
    if forall b :: 0 <= b < n ==> received[b] {
      forall at | 0 <= at < |data|
        ensures CoversOctet(kept, at)
      {
        assert received[at / 8];
        BlockCovers(data, total, kept, at);
      }
    }
    if Covers(kept, |data|) {
      assert forall i :: 0 <= i < |kept| ==> Kept(data, total, kept[i]);
      forall b | 0 <= b < n
        ensures received[b]
      {
        assert CoversOctet(kept, 8 * b);
        OctetReaches(kept, b);
      }
    }
  }

  // ------------------------------------------------------------ taking a fragment

  ghost predicate Clear(kept: seq<Fragment>, fragment: Fragment)
    requires fragment.payload != []
  {
    forall i :: 0 <= i < |kept| ==> kept[i].payload != [] && Apart(kept[i], fragment)
  }

  /** The fragment agrees with the length the datagram is known to have, or with
      what already lies beyond its own end if it is the last. */
  predicate Consistent(data: seq<byte>, total: Option<nat>, fragment: Fragment) {
    && (total.Some? ==> Extent(fragment) <= total.value && (!fragment.more ==> Extent(fragment) == total.value))
    && (!fragment.more ==> |data| <= Extent(fragment))
  }

  function TotalWith(total: Option<nat>, fragment: Fragment): Option<nat> {
    if fragment.more then total else Some(Extent(fragment))
  }

  lemma {:induction false} KeptOn(data: seq<byte>, total: Option<nat>, kept: seq<Fragment>, fragment: Fragment)
    requires AllKept(data, total, kept) && (total.Some? ==> total.value == |data|)
    requires Aligned(fragment) && Formed(fragment) && Consistent(data, total, fragment) && Clear(kept, fragment)
    ensures AllKept(Overlaid(data, fragment), TotalWith(total, fragment), kept + [fragment])
    ensures Tight(data, kept) ==> Tight(Overlaid(data, fragment), kept + [fragment])
  {
    var next, length, all := Overlaid(data, fragment), TotalWith(total, fragment), kept + [fragment];
    OverlayPlaces(data, fragment);
    forall i | 0 <= i < |all|
      ensures Kept(next, length, all[i])
    {
      if i < |kept| {
        assert Kept(data, total, kept[i]) && Apart(kept[i], fragment);
        OverlayKeeps(data, fragment, kept[i]);
      }
    }
    assert all[|kept|] == fragment;
    if Tight(data, kept) && |next| > Extent(fragment) {
      var i :| 0 <= i < |kept| && Extent(kept[i]) == |data|;
      assert Extent(all[i]) == |next|;
    }
  }

  /** Clear of the fragments kept is clear of the bitmap. */
  lemma {:induction false} ClearOfBitmap(received: seq<bool>, kept: seq<Fragment>, fragment: Fragment)
    requires Mapped(received, kept) && Aligned(fragment) && Formed(fragment)
    requires forall i :: 0 <= i < |kept| ==> Formed(kept[i])
    ensures Clear(kept, fragment) <==> forall b :: First(fragment) <= b <= Last(fragment) ==> !received[b]
  {
    forall b | First(fragment) <= b <= Last(fragment) && Clear(kept, fragment)
      ensures !received[b]
    {
      forall i | 0 <= i < |kept|
        ensures !InBlock(kept[i], b)
      {
        assert Apart(kept[i], fragment);
      }
    }
    if forall b :: First(fragment) <= b <= Last(fragment) ==> !received[b] {
      forall i | 0 <= i < |kept|
        ensures kept[i].payload != [] && Apart(kept[i], fragment)
      {
        assert Formed(kept[i]);
        var b := Max(First(kept[i]), First(fragment));
        if b <= Last(fragment) {
          assert !received[b] && !Reaches(kept, b);
          assert !InBlock(kept[i], b);
        }
      }
    }
  }

  lemma {:induction false} MappedOn(received: seq<bool>, next: seq<bool>, kept: seq<Fragment>, fragment: Fragment)
    requires Mapped(received, kept) && Formed(fragment) && |next| == BLOCKS
    requires forall b :: 0 <= b < BLOCKS ==> (next[b] <==> received[b] || First(fragment) <= b <= Last(fragment))
    ensures Mapped(next, kept + [fragment])
  {
    var all := kept + [fragment];
    assert all[|kept|] == fragment;
    forall b | 0 <= b < BLOCKS
      ensures next[b] <==> Reaches(all, b)
    {
      if i :| 0 <= i < |kept| && InBlock(kept[i], b) {
        assert InBlock(all[i], b);
      }
      if i :| 0 <= i < |all| && InBlock(all[i], b) {
        assert i < |kept| ==> InBlock(kept[i], b);
      }
      assert InBlock(fragment, b) ==> InBlock(all[|kept|], b);
    }
  }

  ghost predicate HasLast(kept: seq<Fragment>) {
    exists i :: 0 <= i < |kept| && !kept[i].more
  }

  lemma {:induction false} LastOn(kept: seq<Fragment>, fragment: Fragment)
    ensures HasLast(kept + [fragment]) <==> HasLast(kept) || !fragment.more
  {
    var all := kept + [fragment];
    assert all[|kept|] == fragment;
    if i :| 0 <= i < |kept| && !kept[i].more {
      assert !all[i].more;
    }
  }

  /** How far a datagram has come. */
  datatype Progress = Progress(
    headers: Headers,
    data: seq<byte>,
    total: Option<nat>,
    kept: seq<Fragment>,
    poisoned: bool
  )

  const BLANK := Progress(Headers([], 0), [], None, [], false)

  /** The headers are those of the fragment at offset zero, if it came. */
  ghost predicate Headed(headers: Headers, kept: seq<Fragment>) {
    forall i :: 0 <= i < |kept| && kept[i].offset == 0 ==> kept[i].headers == headers
  }

  ghost predicate Sound(progress: Progress) {
    && AllKept(progress.data, progress.total, progress.kept)
    && Tight(progress.data, progress.kept)
    && Headed(progress.headers, progress.kept)
    && (progress.total.Some? ==> progress.total.value == |progress.data| > 0 && HasLast(progress.kept))
    && |progress.data| <= MAX_DATAGRAM
  }

  /** The fragment agrees with everything kept. */
  ghost predicate Fits(progress: Progress, fragment: Fragment)
    requires Formed(fragment)
  {
    Consistent(progress.data, progress.total, fragment) && Clear(progress.kept, fragment)
  }

  /** What a datagram becomes of a fragment. */
  ghost function Next(progress: Progress, fragment: Fragment): Progress {
    if !Formed(fragment) || progress.poisoned then progress
    else if !Fits(progress, fragment) then progress.(poisoned := true)
    else
      Progress(
        if fragment.offset == 0 then fragment.headers else progress.headers,
        Overlaid(progress.data, fragment), TotalWith(progress.total, fragment), progress.kept + [fragment], false)
  }

  /** What it answers. */
  ghost function Answer(progress: Progress, fragment: Fragment): Outcome<Datagram> {
    var next := Next(progress, fragment);
    if !Formed(fragment) || next.poisoned then Discarded
    else if next.total.Some? && Covers(next.kept, next.total.value) then Complete(Datagram(next.headers, next.data))
    else Pending
  }

  /** A datagram answers a fragment and becomes `next`. */
  ghost predicate Took(progress: Progress, fragment: Fragment, answer: Outcome<Datagram>, next: Progress) {
    forall token {:trigger Shown(token)} :: Shown(token) ==>
      answer == Answer(progress, fragment) && next == Next(progress, fragment)
  }

  lemma {:induction false} TookIs(progress: Progress, fragment: Fragment, answer: Outcome<Datagram>, next: Progress)
    requires Took(progress, fragment, answer, next)
    ensures answer == Answer(progress, fragment) && next == Next(progress, fragment)
  {
    assert Shown(0);
  }

  lemma {:induction false} StaysSound(progress: Progress, fragment: Fragment)
    requires Sound(progress) && !progress.poisoned && Aligned(fragment) && Formed(fragment) && Fits(progress, fragment)
    ensures Sound(Next(progress, fragment))
  {
    KeptOn(progress.data, progress.total, progress.kept, fragment);
    LastOn(progress.kept, fragment);
    if fragment.offset == 0 {
      forall i | 0 <= i < |progress.kept|
        ensures progress.kept[i].offset != 0
      {
        assert Apart(progress.kept[i], fragment);
      }
    }
  }

  class PendingDatagram {
    var headers: Headers
    var data: seq<byte>
    var received: seq<bool>
    var receivedBlocks: nat
    var total: Option<nat>
    var poisoned: bool
    ghost var kept: seq<Fragment>

    ghost function State(): Progress
      reads this
    {
      Progress(headers, data, total, kept, poisoned)
    }

    ghost predicate Valid()
      reads this
    {
      !poisoned ==> Sound(State()) && Mapped(received, kept) && receivedBlocks == Count(received, BLOCKS)
    }

    /** Valid, and come so far. */
    ghost predicate Holds(progress: Progress)
      reads this
    {
      forall token {:trigger Shown(token)} :: Shown(token) ==> Valid() && State() == progress
    }

    constructor ()
      ensures Valid() && State() == BLANK && Holds(BLANK)
    {
      headers, data := Headers([], 0), [];
      received, receivedBlocks, total, poisoned := seq(BLOCKS, b => false), 0, None, false;
      kept := [];
      new;
      NoneCounted(BLOCKS);
    }

    method Overlaps(first: nat, last: nat) returns (overlaps: bool)
      requires |received| == BLOCKS && first <= last < BLOCKS
      ensures overlaps <==> exists b :: first <= b <= last && received[b]
    {
      for b := first to last + 1
        invariant forall c :: first <= c < b ==> !received[c]
      {
        if received[b] {
          return true;
        }
      }
      return false;
    }

    method MarkReceived(first: nat, last: nat)
      requires |received| == BLOCKS && first <= last < BLOCKS && receivedBlocks == Count(received, BLOCKS)
      requires forall b :: first <= b <= last ==> !received[b]
      modifies `received, `receivedBlocks
      ensures |received| == BLOCKS && receivedBlocks == Count(received, BLOCKS)
      ensures forall b :: 0 <= b < BLOCKS ==> (received[b] <==> old(received)[b] || first <= b <= last)
    {
      for b := first to last + 1
        invariant |received| == BLOCKS && receivedBlocks == old(receivedBlocks)
        invariant Count(received, BLOCKS) == receivedBlocks + (b - first)
        invariant forall c :: 0 <= c < BLOCKS ==> (received[c] <==> old(received)[c] || first <= c < b)
      {
        CountSet(received, b, BLOCKS);
        received := received[b := true];
      }
      receivedBlocks := receivedBlocks + (last - first + 1);
    }

    /** A fragment that fits is placed and marked. */
    method Accept(fragment: Fragment)
      requires Valid() && !poisoned && Aligned(fragment) && Formed(fragment) && Fits(State(), fragment)
      modifies this
      ensures Valid() && State() == Next(old(State()), fragment)
    {
      assert forall i :: 0 <= i < |kept| ==> Kept(data, total, kept[i]);
      ClearOfBitmap(received, kept, fragment);
      StaysSound(State(), fragment);
      ghost var before := received;
      if fragment.offset == 0 {
        headers := fragment.headers;
      }
      MarkReceived(First(fragment), Last(fragment));
      MappedOn(before, received, kept, fragment);
      data := Overlaid(data, fragment);
      total := TotalWith(total, fragment);
      kept := kept + [fragment];
    }

    /** `push`, for one datagram. A malformed fragment is discarded and changes
        nothing; one that contradicts the length or shares a block poisons the
        datagram for good; any other is kept, and the datagram is complete exactly
        when its length is known and every octet has arrived, with the headers of
        its first fragment. */
    method Push(fragment: Fragment) returns (outcome: Outcome<Datagram>)
      requires Valid() && Aligned(fragment)
      modifies this
      ensures Valid() && State() == Next(old(State()), fragment)
      ensures outcome == Answer(old(State()), fragment)
    {
      if !Formed(fragment) || poisoned {
        return Discarded;
      }
      assert forall i :: 0 <= i < |kept| ==> Kept(data, total, kept[i]);
      ClearOfBitmap(received, kept, fragment);
      if !Consistent(data, total, fragment) {
        poisoned := true;
        return Discarded;
      }
      var overlaps := Overlaps(First(fragment), Last(fragment));
      if overlaps {
        poisoned := true;
        return Discarded;
      }
      Accept(fragment);
      if total.None? {
        return Pending;
      }
      CountTellsWhole(data, total, kept, received);
      outcome := if receivedBlocks == BlockCount(total.value) then Complete(Datagram(headers, data)) else Pending;
    }

    /** `Push`, for a table of datagrams. */
    method Offer(fragment: Fragment, ghost progress: Progress) returns (outcome: Outcome<Datagram>, ghost next: Progress)
      requires Holds(progress) && Aligned(fragment)
      modifies this
      ensures Holds(next) && Took(progress, fragment, outcome, next)
    {
      assert Shown(0);
      next := Next(State(), fragment);
      outcome := Push(fragment);
    }
  }

  lemma {:induction false} NoneCounted(n: nat)
    requires n <= BLOCKS
    ensures Count(seq(BLOCKS, b => false), n) == 0
  {
    if n > 0 {
      NoneCounted(n - 1);
    }
  }

  // ------------------------------------------------------------ against the datagram sent

  /** A fragment of `whole`, cut at block boundaries; nothing longer than a 16-bit
      length can say is ever sent. */
  ghost predicate PieceOf(fragment: Fragment, whole: seq<byte>) {
    && |whole| < 0x1_0000
    && fragment.payload != [] && fragment.offset % 8 == 0 && (fragment.more ==> |fragment.payload| % 8 == 0)
    && Extent(fragment) <= |whole|
    && fragment.payload == whole[fragment.offset..Extent(fragment)]
    && (fragment.more <==> Extent(fragment) < |whole|)
  }

  ghost predicate AllPieces(fragments: seq<Fragment>, whole: seq<byte>) {
    && (forall i :: 0 <= i < |fragments| ==> PieceOf(fragments[i], whole))
    && (forall i, j :: 0 <= i < j < |fragments| ==> Apart(fragments[i], fragments[j]))
  }

  /** Fragments of one datagram never contradict one another. */
  lemma {:induction false} PiecesAgree(
      data: seq<byte>, total: Option<nat>, kept: seq<Fragment>, fragment: Fragment, whole: seq<byte>)
    requires AllKept(data, total, kept) && Tight(data, kept) && (total.Some? ==> total.value == |data| > 0)
    requires forall i :: 0 <= i < |kept| ==> PieceOf(kept[i], whole)
    requires PieceOf(fragment, whole)
    requires total.Some? ==> HasLast(kept)
    ensures Consistent(data, total, fragment)
  {
    if data != [] {
      var i :| 0 <= i < |kept| && Extent(kept[i]) == |data|;
      assert PieceOf(kept[i], whole);
    }
    if total.Some? {
      var i :| 0 <= i < |kept| && !kept[i].more;
      assert PieceOf(kept[i], whole) && Kept(data, total, kept[i]);
    }
  }

  /** Pieces that cover a datagram spell it. */
  lemma {:induction false} PiecesSpell(data: seq<byte>, total: Option<nat>, kept: seq<Fragment>, whole: seq<byte>)
    requires AllKept(data, total, kept) && total == Some(|data|) && Covers(kept, |data|)
    requires forall i :: 0 <= i < |kept| ==> PieceOf(kept[i], whole)
    requires |data| == |whole|
    ensures data == whole
  {
    forall at | 0 <= at < |data|
      ensures data[at] == whole[at]
    {
      assert CoversOctet(kept, at);
      var i :| 0 <= i < |kept| && kept[i].offset <= at < Extent(kept[i]);
      assert Kept(data, total, kept[i]) && PieceOf(kept[i], whole);
      assert data[kept[i].offset..Extent(kept[i])][at - kept[i].offset] == whole[kept[i].offset..Extent(kept[i])][at - kept[i].offset];
    }
  }

  /** A known length is that of the datagram, and covering it needs its last piece. */
  lemma {:induction false} LengthIsKnown(data: seq<byte>, total: Option<nat>, kept: seq<Fragment>, whole: seq<byte>)
    requires AllKept(data, total, kept) && (total.Some? ==> HasLast(kept))
    requires forall i :: 0 <= i < |kept| ==> PieceOf(kept[i], whole)
    requires whole != []
    ensures total.Some? ==> total.value == |whole|
    ensures Covers(kept, |whole|) ==> total.Some?
  {
    if total.Some? {
      var i :| 0 <= i < |kept| && !kept[i].more;
      assert Kept(data, total, kept[i]) && PieceOf(kept[i], whole);
    }
    if Covers(kept, |whole|) {
      assert CoversOctet(kept, |whole| - 1);
      var i :| 0 <= i < |kept| && kept[i].offset <= |whole| - 1 < Extent(kept[i]);
      assert Kept(data, total, kept[i]) && PieceOf(kept[i], whole);
    }
  }

  /** The headers are those of the piece at offset zero, which a covered datagram
      has. */
  ghost predicate HeadedBy(pieces: seq<Fragment>, headers: Headers) {
    exists i :: 0 <= i < |pieces| && pieces[i].offset == 0 && pieces[i].headers == headers
  }

  lemma {:induction false} CoveredIsHeaded(headers: Headers, kept: seq<Fragment>, length: nat)
    requires Headed(headers, kept) && Covers(kept, length) && length > 0
    ensures HeadedBy(kept, headers)
  {
    assert CoversOctet(kept, 0);
  }

  /** So far pieces of `whole` have been kept. */
  ghost predicate Gathers(progress: Progress, whole: seq<byte>) {
    Sound(progress) && !progress.poisoned && forall i :: 0 <= i < |progress.kept| ==> PieceOf(progress.kept[i], whole)
  }

  /** The answer to the last of `pieces`, when all before it are kept. */
  ghost predicate AnswersPiece(outcome: Outcome<Datagram>, pieces: seq<Fragment>, whole: seq<byte>) {
    if Covers(pieces, |whole|) then outcome.Complete? && outcome.value.data == whole && HeadedBy(pieces, outcome.value.headers)
    else outcome.Pending?
  }

  /** One more piece of `whole`, apart from those before it. */
  lemma {:induction false} PieceFits(progress: Progress, fragment: Fragment, whole: seq<byte>)
    requires Gathers(progress, whole) && PieceOf(fragment, whole) && Clear(progress.kept, fragment)
    ensures Gathers(Next(progress, fragment), whole) && Next(progress, fragment).kept == progress.kept + [fragment]
    ensures AnswersPiece(Answer(progress, fragment), progress.kept + [fragment], whole)
  {
    PiecesAgree(progress.data, progress.total, progress.kept, fragment, whole);
    StaysSound(progress, fragment);
    var next := Next(progress, fragment);
    assert forall i :: 0 <= i < |next.kept| ==> PieceOf(next.kept[i], whole);
    LengthIsKnown(next.data, next.total, next.kept, whole);
    if next.total.Some? && Covers(next.kept, |whole|) {
      PiecesSpell(next.data, next.total, next.kept, whole);
      CoveredIsHeaded(next.headers, next.kept, |whole|);
    }
  }

  /** A piece apart from all of those before leaves something uncovered without it. */
  lemma {:induction false} NotYetCovered(pieces: seq<Fragment>, fragment: Fragment, whole: seq<byte>)
    requires PieceOf(fragment, whole) && Clear(pieces, fragment)
    ensures !Covers(pieces, |whole|)
  {
    assert forall i :: 0 <= i < |pieces| ==> Apart(pieces[i], fragment);
    assert !CoversOctet(pieces, fragment.offset);
  }

  method PushPiece(pending: PendingDatagram, fragment: Fragment, ghost whole: seq<byte>) returns (outcome: Outcome<Datagram>)
    requires pending.Valid() && Gathers(pending.State(), whole) && PieceOf(fragment, whole) && Clear(pending.kept, fragment)
    modifies pending
    ensures pending.Valid() && Gathers(pending.State(), whole) && pending.kept == old(pending.kept) + [fragment]
    ensures AnswersPiece(outcome, pending.kept, whole)
  {
    PieceFits(pending.State(), fragment, whole);
    outcome := pending.Push(fragment);
  }

  lemma {:induction false} ClearOfEarlier(pieces: seq<Fragment>, n: nat, whole: seq<byte>)
    requires AllPieces(pieces, whole) && n < |pieces|
    ensures Clear(pieces[..n], pieces[n])
    ensures pieces[..n] + [pieces[n]] == pieces[..n + 1]
  {
  }

  /** Reassembly inverts fragmentation: pieces of a datagram that share no block,
      in whatever order they come, stay pending until every octet is there, and
      then give exactly the datagram, under the headers of its first piece. */
  method Reassemble(pieces: seq<Fragment>, ghost whole: seq<byte>) returns (outcomes: seq<Outcome<Datagram>>)
    requires AllPieces(pieces, whole)
    ensures |outcomes| == |pieces|
    ensures forall i :: 0 <= i < |pieces| ==> AnswersPiece(outcomes[i], pieces[..i + 1], whole)
  {
    var pending := new PendingDatagram();
    outcomes := [];
    for n := 0 to |pieces|
      invariant pending.Valid() && Gathers(pending.State(), whole) && pending.kept == pieces[..n] && |outcomes| == n
      invariant forall i :: 0 <= i < n ==> AnswersPiece(outcomes[i], pieces[..i + 1], whole)
    {
      ClearOfEarlier(pieces, n, whole);
      var outcome := PushPiece(pending, pieces[n], whole);
      outcomes := outcomes + [outcome];
    }
  }
}
