/**
 * The bounded buffer pool: buffers are allocated lazily up to a capacity, loaned
 * to one owner each, and recycled empty when the loan is dropped.
 */
module Pool {
  import opened Bytes

  /** A loaned buffer. The number is the allocation's identity. */
  datatype Pooled = Pooled(id: nat, bytes: seq<byte>)

  function Zeros(n: nat): seq<byte> {
    seq(n, i => 0)
  }

  /** `Vec::resize` with zero fill. */
  function Resized(bytes: seq<byte>, n: nat): seq<byte> {
    if n <= |bytes| then bytes[..n] else bytes + Zeros(n - |bytes|)
  }

  /** The cached buffers, how many are allocated, and which are out on loan. */
  datatype Stock = Stock(free: seq<Pooled>, live: nat, loans: set<nat>)

  /** Every allocated buffer is cached, once and empty, or on loan. */
  ghost predicate InOrder(stock: Stock) {
    && (forall id: nat {:trigger OnLoan(stock, id)} :: OnLoan(stock, id) ==> id < stock.live)
    && (forall id: nat {:trigger OnLoan(stock, id)} :: id < stock.live && !OnLoan(stock, id) ==> id in Cached(stock.free))
    && (forall i :: 0 <= i < |stock.free| ==> Spare(stock, stock.free[i]))
    && Distinct(Cached(stock.free))
  }

  ghost function Cached(free: seq<Pooled>): (ids: seq<nat>)
    ensures |ids| == |free|
  {
    seq(|free|, i requires 0 <= i < |free| => free[i].id)
  }

  ghost predicate OnLoan(stock: Stock, id: nat) {
    id in stock.loans
  }

  ghost predicate Spare(stock: Stock, buffer: Pooled) {
    buffer.id < stock.live && buffer.id !in stock.loans && buffer.bytes == []
  }

  ghost predicate Distinct(ids: seq<nat>) {
    forall i, j :: 0 <= i < j < |ids| ==> ids[i] != ids[j]
  }

  ghost function Elements(ids: seq<nat>): set<nat> {
    set id | id in ids
  }

  lemma {:induction false} DistinctCount(ids: seq<nat>)
    requires Distinct(ids)
    ensures |Elements(ids)| == |ids|
  {
    if ids != [] {
      var last := ids[|ids| - 1];
      var init := ids[..|ids| - 1];
      DistinctCount(init);
      assert forall i :: 0 <= i < |init| ==> init[i] == ids[i] && ids[i] != last;
      assert last !in init;
      assert ids == init + [last];
      assert Elements(ids) == Elements(init) + {last};
    }
  }

  ghost function Below(n: nat): (ids: set<nat>)
    ensures |ids| == n
    ensures forall id :: id in ids <==> 0 <= id < n
  {
    if n == 0 then {} else Below(n - 1) + {n - 1}
  }

  /** The loans are the allocated buffers less the cached ones. */
  lemma {:induction false} LoansCount(stock: Ordered)
    ensures |stock.loans| + |stock.free| == stock.live
  {
    var cached := Elements(Cached(stock.free));
    DistinctCount(Cached(stock.free));
    forall id | id in cached
      ensures id < stock.live && id !in stock.loans
    {
      var i :| 0 <= i < |stock.free| && Cached(stock.free)[i] == id;
      assert Spare(stock, stock.free[i]);
    }
    forall id: nat
      ensures id < stock.live <==> id in stock.loans || id in cached
    {
      assert OnLoan(stock, id) <==> id in stock.loans;
    }
    assert Below(stock.live) == stock.loans + cached;
  }

  type Ordered = stock: Stock | InOrder(stock) ghost witness Stock([], 0, {})

  ghost function Recycled(stock: Ordered): (next: Ordered)
    requires stock.free != []
    ensures stock.free[|stock.free| - 1].id !in stock.loans && stock.free[|stock.free| - 1].bytes == []
    ensures next.free == stock.free[..|stock.free| - 1] && next.live == stock.live
    ensures next.loans == stock.loans + {stock.free[|stock.free| - 1].id}
  {
    var last := stock.free[|stock.free| - 1];
    var next := Stock(stock.free[..|stock.free| - 1], stock.live, stock.loans + {last.id});
    assert Spare(stock, last);
    assert Cached(stock.free) == Cached(next.free) + [last.id];
    assert Cached(stock.free)[|next.free|] == last.id;
    assert forall i :: 0 <= i < |next.free| ==> Spare(stock, stock.free[i]) && Cached(stock.free)[i] != last.id;
    assert forall id: nat :: OnLoan(next, id) <==> OnLoan(stock, id) || id == last.id;
    next
  }

  ghost function Allocated(stock: Ordered): (next: Ordered)
    requires stock.free == []
    ensures stock.live !in stock.loans
    ensures next == Stock([], stock.live + 1, stock.loans + {stock.live})
  {
    var next := Stock([], stock.live + 1, stock.loans + {stock.live});
    assert !OnLoan(stock, stock.live);
    assert forall id: nat :: OnLoan(next, id) <==> OnLoan(stock, id) || id == stock.live;
    next
  }

  ghost function Returned(stock: Ordered, slice: Pooled): (next: Ordered)
    requires slice.id in stock.loans
    ensures next == Stock(stock.free + [slice.(bytes := [])], stock.live, stock.loans - {slice.id})
  {
    var next := Stock(stock.free + [slice.(bytes := [])], stock.live, stock.loans - {slice.id});
    assert OnLoan(stock, slice.id);
    assert Cached(next.free) == Cached(stock.free) + [slice.id];
    assert forall i :: 0 <= i < |stock.free| ==> Spare(stock, stock.free[i]);
    assert forall id: nat :: OnLoan(next, id) <==> OnLoan(stock, id) && id != slice.id;
    next
  }

  class BufferPool {
    const sliceSize: nat
    const capacity: nat
    var free: seq<Pooled>
    var live: nat
    var exhausted: nat
    ghost var stock: Ordered

    ghost predicate Valid()
      reads this
    {
      stock.free == free && stock.live == live && live <= capacity
    }

    /** How many more slices can be had. */
    ghost function Spare(): int
      reads `free, `live
    {
      capacity - live + |free|
    }

    /** The buffers out on loan. */
    ghost function Loans(): set<nat>
      reads `stock
    {
      stock.loans
    }

    constructor (sliceSize: nat, capacity: nat)
      requires sliceSize > 0 && capacity > 0
      ensures Valid() && Loans() == {} && exhausted == 0
      ensures this.sliceSize == sliceSize && this.capacity == capacity
    {
      this.sliceSize, this.capacity := sliceSize, capacity;
      free, live, exhausted, stock := [], 0, 0, Stock([], 0, {});
    }

    /** Refused exactly when the length does not fit a slice or every buffer is
        on loan; otherwise an empty buffer nobody else holds. */
    method Reserve(length: nat) returns (slice: Option<Pooled>)
      requires Valid()
      modifies this
      ensures Valid()
      ensures slice.None? <==> length > sliceSize || old(Spare()) == 0
      ensures slice.None? ==> Loans() == old(Loans()) && Spare() == old(Spare())
      ensures slice.Some? ==>
                && Spare() == old(Spare()) - 1
                && slice.value.id !in old(Loans())
                && Loans() == old(Loans()) + {slice.value.id}
                && slice.value.bytes == []
      ensures exhausted == old(exhausted) + if length <= sliceSize && old(Spare()) == 0 then 1 else 0
    {
      if length > sliceSize {
        return None;
      }
      if free != [] {
        slice := Some(free[|free| - 1]);
        stock := Recycled(stock);
        free := free[..|free| - 1];
      } else if live >= capacity {
        exhausted := exhausted + 1;
        return None;
      } else {
        slice := Some(Pooled(live, []));
        stock := Allocated(stock);
        live := live + 1;
      }
    }

    method Take(bytes: seq<byte>) returns (slice: Option<Pooled>)
      requires Valid()
      modifies this
      ensures Valid()
      ensures slice.None? <==> |bytes| > sliceSize || old(Spare()) == 0
      ensures slice.None? ==> Loans() == old(Loans()) && Spare() == old(Spare())
      ensures slice.Some? ==>
                && Spare() == old(Spare()) - 1
                && slice.value.id !in old(Loans())
                && Loans() == old(Loans()) + {slice.value.id}
                && slice.value.bytes == bytes
    {
      slice := Reserve(|bytes|);
      if slice.Some? {
        slice := Some(slice.value.(bytes := slice.value.bytes + bytes));
      }
    }

    method TakeZeroed(length: nat) returns (slice: Option<Pooled>)
      requires Valid()
      modifies this
      ensures Valid()
      ensures slice.None? <==> length > sliceSize || old(Spare()) == 0
      ensures slice.None? ==> Loans() == old(Loans()) && Spare() == old(Spare())
      ensures slice.Some? ==>
                && Spare() == old(Spare()) - 1
                && slice.value.id !in old(Loans())
                && Loans() == old(Loans()) + {slice.value.id}
                && slice.value.bytes == Zeros(length)
    {
      slice := Reserve(length);
      if slice.Some? {
        slice := Some(slice.value.(bytes := Resized(slice.value.bytes, length)));
      }
    }

    /** `Drop`: the owner gives its one loan up. */
    method Release(slice: Pooled)
      requires Valid() && slice.id in Loans()
      modifies this
      ensures Valid() && Loans() == old(Loans()) - {slice.id} && exhausted == old(exhausted)
      ensures Spare() == old(Spare()) + 1
    {
      stock := Returned(stock, slice);
      free := free + [slice.(bytes := [])];
    }

    /** `Pooled::resize`: never past the slice size, zero-filling growth. */
    method Resize(slice: Pooled, length: nat) returns (resized: Pooled, fits: bool)
      ensures resized.id == slice.id
      ensures fits <==> length <= sliceSize
      ensures !fits ==> resized == slice
      ensures fits ==> |resized.bytes| == length
      ensures fits ==> forall i :: 0 <= i < length ==>
                resized.bytes[i] == if i < |slice.bytes| then slice.bytes[i] else 0
    {
      fits := length <= sliceSize;
      resized := if fits then slice.(bytes := Resized(slice.bytes, length)) else slice;
    }

    /** What the pool can still provide is its capacity less the Loans(). */
    method Available() returns (n: nat)
      requires Valid()
      ensures n == Spare() == capacity - |Loans()|
    {
      LoansCount(stock);
      n := capacity - live + |free|;
    }
  }
}
