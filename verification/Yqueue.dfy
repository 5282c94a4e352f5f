/**
 The queue of yqueue.hpp: a doubly linked list of chunks of N slots, positions
 `begin`, `back` and `end` in it, and one spare chunk.

 The allocator is part of the model: `Malloc` may hand out a chunk that was
 freed before, so that distinctness of addresses is about reused memory too,
 and `Free` must not be given a chunk that is free already or still in use.
 */
module Yqueue {

  /** `chunk_t`: the slots, which are part of the chunk itself, and the links. */
  class Chunk<T(0)> {
    var values: seq<T>
    var prev: Chunk?<T>
    var next: Chunk?<T>
    ghost var start: nat     // position of the first slot, while the chunk is in the list

    constructor (n: nat)
      ensures |values| == n && start == 0
    {
      var garbage: T := *;
      values := seq(n, _ => garbage);
      start := 0;
    }
  }

  /** The address of a slot. */
  datatype Address<T(0)> = Address(chunk: Chunk<T>, index: nat)

  class YQueue<T(0)> {
    const N: nat
    var beginChunk: Chunk<T>
    var beginPos: nat
    var backChunk: Chunk?<T>
    var backPos: nat
    var endChunk: Chunk<T>
    var endPos: nat
    var spareChunk: Chunk?<T>

    var freed: set<Chunk<T>>            // the allocator's free chunks

    ghost var contents: seq<T>          // the elements, front first
    ghost var cells: seq<Address<T>>    // the slots of the elements, then the slot for the next push
    ghost var popped: nat               // elements removed at the front so far
    ghost var pool: set<Chunk<T>>       // every chunk ever allocated
    ghost var Repr: set<object>

    ghost predicate PoolValid()
      reads `pool, `Repr, Repr
    {
      && N >= 1
      && this in Repr
      && (forall c :: c in pool ==> c in Repr && |c.values| == N)
    }

    /** No chunk is in two of the places: live list, spare, free list. */
    ghost predicate PlacesValid()
      reads `cells, `pool, `spareChunk, `freed
    {
      && freed <= pool
      && (spareChunk != null ==> spareChunk in pool && spareChunk !in freed)
      && (forall i :: 0 <= i < |cells| ==> cells[i].chunk != spareChunk && cells[i].chunk !in freed)
    }

    /** The position of a cell is determined by its address. */
    ghost predicate CellsPlaced()
      reads `cells, `popped, `pool, `Repr, Repr
    {
      && |cells| > 0
      && (forall i :: 0 <= i < |cells| ==>
            cells[i].chunk in pool && cells[i].chunk in Repr && cells[i].index < N && cells[i].chunk.start + cells[i].index == popped + i)
    }

    /** The next cell is the next slot, in the same chunk or across a link. */
    ghost predicate LinkedAt(i: nat)
      requires i + 1 < |cells|
      reads `cells, cells[i].chunk`next, cells[i + 1].chunk`prev
    {
      var a, b := cells[i], cells[i + 1];
      if a.index + 1 < N then b == Address(a.chunk, a.index + 1)
      else b.index == 0 && a.chunk.next == b.chunk && b.chunk.prev == a.chunk
    }

    /** The cells run through the linked list. */
    ghost predicate CellsValid()
      reads `cells, `popped, `pool, `Repr, Repr
    {
      CellsPlaced() && forall i :: 0 <= i < |cells| - 1 ==> LinkedAt(i)
    }

    ghost predicate PositionsValid()
      reads this
      requires |cells| > 0
    {
      && cells[0] == Address(beginChunk, beginPos)
      && cells[|cells| - 1] == Address(endChunk, endPos)
      && (|cells| > 1 ==> backChunk != null && cells[|cells| - 2] == Address(backChunk, backPos))
    }

    /** `contents` are the values in the slots of the elements. */
    ghost predicate ContentsValid()
      requires PoolValid() && CellsPlaced()
      reads `contents, `cells, `popped, `pool, `Repr, Repr
    {
      && |contents| == |cells| - 1
      && (forall i :: 0 <= i < |contents| ==> contents[i] == cells[i].chunk.values[cells[i].index])
    }

    ghost predicate Valid()
      reads this, Repr
    {
      PoolValid() && PlacesValid() && CellsValid() && PositionsValid() && ContentsValid()
    }

    /** The slot of the element at absolute position `p`, counted from the first
        element that was ever in the queue; for the position behind the last
        element it is the slot the next push will use. */
    ghost function AddressOf(p: nat): Address<T>
      requires InUse(p)
      reads this
    {
      cells[p - popped]
    }

    ghost predicate InUse(p: nat)
      reads this
    {
      popped <= p < popped + |cells|
    }

    /** Elements in use, and the slot behind them, have pairwise distinct addresses:
        comparing pointers into the queue is comparing positions. */
    lemma AddressesDistinct(p: nat, q: nat)
      requires Valid() && InUse(p) && InUse(q)
      ensures AddressOf(p) == AddressOf(q) <==> p == q
    {
    }

    constructor (n: nat)
      requires n >= 1
      ensures Valid() && fresh(Repr) && N == n
      ensures contents == [] && popped == 0
    {
      N := n;
      var chunk := new Chunk<T>(n);
      beginChunk, beginPos := chunk, 0;
      backChunk, backPos := null, 0;
      endChunk, endPos := chunk, 0;
      spareChunk, freed := null, {};
      contents, cells, popped, pool := [], [Address(chunk, 0)], 0, {chunk};
      Repr := {this, chunk};
    }

    /** `malloc` of a chunk: a new one, or one that was freed before. */
    method Malloc() returns (chunk: Chunk<T>)
      requires PoolValid() && PlacesValid()
      modifies `freed, `pool, `Repr
      ensures PoolValid() && PlacesValid()
      ensures old(pool) <= pool && old(Repr) <= Repr && fresh(Repr - old(Repr))
      ensures chunk in pool && chunk !in freed
      ensures chunk in old(freed) || fresh(chunk)
    {
      var reuse: bool := *;
      if reuse && freed != {} {
        chunk :| chunk in freed;
        freed := freed - {chunk};
      } else {
        chunk := new Chunk<T>(N);
        pool := pool + {chunk};
        Repr := Repr + {chunk};
      }
    }

    /** `free`: the chunk must be in nobody's hands, the allocator's included. */
    method Free(chunk: Chunk<T>)
      requires PlacesValid()
      requires chunk in pool && chunk != spareChunk && chunk !in freed
      requires forall i :: 0 <= i < |cells| ==> cells[i].chunk != chunk
      modifies `freed
      ensures PlacesValid() && freed == old(freed) + {chunk}
    {
      freed := freed + {chunk};
    }

    /** The front element. */
    method Front() returns (v: T)
      requires Valid() && contents != []
      ensures v == contents[0]
    {
      v := beginChunk.values[beginPos];
    }

    /** The address of the front element. */
    method FrontAddress() returns (a: Address<T>)
      requires Valid() && contents != []
      ensures a == cells[0]
    {
      a := Address(beginChunk, beginPos);
    }

    /** The back element. */
    method Back() returns (v: T)
      requires Valid() && contents != []
      ensures v == contents[|contents| - 1]
    {
      v := backChunk.values[backPos];
    }

    /** The address of the back element. */
    method BackAddress() returns (a: Address<T>)
      requires Valid() && contents != []
      ensures |cells| == |contents| + 1 && a == cells[|cells| - 2]
    {
      a := Address(backChunk, backPos);
    }

    /** Assignment through the reference that `back` returns. */
    method SetBack(v: T)
      requires Valid() && contents != []
      modifies `contents, backChunk`values
      ensures Valid() && contents == old(contents)[..|old(contents)| - 1] + [v]
    {
      backChunk.values := backChunk.values[backPos := v];
      contents := contents[..|contents| - 1] + [v];
    }

    /** Adds an element with an arbitrary value at the back. */
    method Push()
      requires Valid()
      modifies Repr
      ensures Valid() && fresh(Repr - old(Repr))
      ensures |contents| > 0 && contents[..|contents| - 1] == old(contents)
      ensures popped == old(popped) && |cells| > 0 && cells[..|cells| - 1] == old(cells)
    {
      backChunk := endChunk;
      backPos := endPos;
      contents := contents + [backChunk.values[backPos]];
      MoveEnd();
    }

    /** Moves `end` to the next slot, in this chunk or in another one. */
    method MoveEnd()
      requires PoolValid() && PlacesValid() && CellsValid()
      requires cells[|cells| - 1] == Address(endChunk, endPos)
      modifies `endChunk, `endPos, `spareChunk, `freed, `cells, `pool, `Repr, pool`next, pool`prev, pool`start
      ensures PoolValid() && PlacesValid() && CellsValid() && fresh(Repr - old(Repr))
      ensures cells == old(cells) + [Address(endChunk, endPos)]
      ensures old(pool) <= pool
    {
      if endPos + 1 != N {
        AdvanceEnd();
      } else {
        Grow();
      }
    }

    /** Moves `end` to the first slot of another chunk. */
    method Grow()
      requires PoolValid() && PlacesValid() && CellsValid()
      requires cells[|cells| - 1] == Address(endChunk, endPos) && endPos + 1 == N
      modifies `endChunk, `endPos, `spareChunk, `freed, `cells, `pool, `Repr, pool`next, pool`prev, pool`start
      ensures PoolValid() && PlacesValid() && CellsValid() && fresh(Repr - old(Repr))
      ensures cells == old(cells) + [Address(endChunk, endPos)]
      ensures old(pool) <= pool
    {
      var sc := TakeChunk();
      Append(sc);
    }

    /** Moves `end` to the next slot of its chunk. */
    method AdvanceEnd()
      requires PoolValid() && PlacesValid() && CellsValid()
      requires cells[|cells| - 1] == Address(endChunk, endPos) && endPos + 1 < N
      modifies `endPos, `cells
      ensures PoolValid() && PlacesValid() && CellsValid()
      ensures cells == old(cells) + [Address(endChunk, endPos)]
    {
      endPos := endPos + 1;
      cells := cells + [Address(endChunk, endPos)];
      forall i | 0 <= i < |cells| - 2
        ensures LinkedAt(i)
      {
        assert old(LinkedAt(i));
      }
    }

    /** The spare chunk (`spare_chunk.xchg (NULL)`) or, if there is none, a chunk
        from the allocator. */
    method TakeChunk() returns (sc: Chunk<T>)
      requires PoolValid() && PlacesValid() && CellsValid()
      modifies `spareChunk, `freed, `pool, `Repr
      ensures PoolValid() && PlacesValid() && CellsValid() && spareChunk == null
      ensures old(pool) <= pool && old(Repr) <= Repr && fresh(Repr - old(Repr))
      ensures sc in pool && sc !in freed && (sc in old(pool) || fresh(sc))
      ensures forall i :: 0 <= i < |cells| ==> cells[i].chunk != sc
    {
      if spareChunk != null {
        sc := spareChunk;
        spareChunk := null;
      } else {
        sc := Malloc();
      }
      forall i | 0 <= i < |cells| - 1
        ensures LinkedAt(i)
      {
        assert old(LinkedAt(i));
      }
    }

    /** Links a chunk behind the last one and moves `end` to its first slot. */
    method Append(sc: Chunk<T>)
      requires PoolValid() && PlacesValid() && CellsValid()
      requires cells[|cells| - 1] == Address(endChunk, endPos) && endPos + 1 == N
      requires sc in pool && sc !in freed && spareChunk == null
      requires forall i :: 0 <= i < |cells| ==> cells[i].chunk != sc
      modifies `endChunk, `endPos, `cells, endChunk`next, sc`prev, sc`start
      ensures PoolValid() && PlacesValid() && CellsValid()
      ensures cells == old(cells) + [Address(endChunk, endPos)]
    {
      endChunk.next := sc;
      sc.prev := endChunk;
      sc.start := endChunk.start + N;
      endChunk := sc;
      endPos := 0;
      cells := cells + [Address(sc, 0)];
      forall i | 0 <= i < |cells| - 2
        ensures LinkedAt(i)
      {
        assert old(LinkedAt(i));
      }
    }

    lemma CellBefore(i: nat)
      requires PoolValid() && CellsValid() && 0 < i < |cells|
      ensures var a, b := cells[i - 1], cells[i];
              if b.index > 0 then a == Address(b.chunk, b.index - 1)
              else b.chunk.prev == a.chunk && a.chunk.next == b.chunk && a.index == N - 1
    {
      assert LinkedAt(i - 1);
    }

    /** Removes the back element. */
    method Unpush()
      requires Valid() && contents != []
      modifies Repr
      ensures Valid() && Repr == old(Repr)
      ensures contents == old(contents)[..|old(contents)| - 1]
      ensures popped == old(popped) && cells == old(cells)[..|old(cells)| - 1]
    {
      contents := contents[..|contents| - 1];
      RetreatBack();
      RetreatEnd();
    }

    /** First, move `back` one position backwards. */
    method RetreatBack()
      requires PoolValid() && PlacesValid() && CellsValid() && PositionsValid() && |cells| > 1
      modifies `backChunk, `backPos
      ensures |cells| > 2 ==> backChunk != null && cells[|cells| - 3] == Address(backChunk, backPos)
    {
      if |cells| > 2 {
        CellBefore(|cells| - 2);
      }
      if backPos > 0 {
        backPos := backPos - 1;
      } else {
        backPos := N - 1;
        backChunk := backChunk.prev;
      }
    }

    /** Now, move `end` backwards. */
    method RetreatEnd()
      requires PoolValid() && PlacesValid() && CellsValid() && |cells| > 1
      requires cells[|cells| - 1] == Address(endChunk, endPos)
      modifies `endChunk, `endPos, `cells, `freed, pool`next
      ensures PoolValid() && PlacesValid() && CellsValid()
      ensures cells == old(cells)[..|old(cells)| - 1]
      ensures cells[|cells| - 1] == Address(endChunk, endPos)
    {
      CellBefore(|cells| - 1);
      if endPos > 0 {
        endPos := endPos - 1;
        cells := cells[..|cells| - 1];
        forall i | 0 <= i < |cells| - 1
          ensures LinkedAt(i)
        {
          assert old(LinkedAt(i));
        }
      } else {
        endPos := N - 1;
        endChunk := endChunk.prev;
        DropLastChunk();
      }
    }

    /** Unlinks and frees the chunk behind `end`, which holds no element. */
    method DropLastChunk()
      requires PoolValid() && PlacesValid() && CellsValid() && |cells| > 1
      requires var a, b := cells[|cells| - 2], cells[|cells| - 1];
               a == Address(endChunk, endPos) && endPos == N - 1 && endChunk.next != null && b == Address(endChunk.next, 0)
      modifies `cells, `freed, endChunk`next
      ensures PoolValid() && PlacesValid() && CellsValid()
      ensures cells == old(cells)[..|old(cells)| - 1]
    {
      var last := endChunk.next;
      cells := cells[..|cells| - 1];
      assert forall i :: 0 <= i < |cells| ==> cells[i].chunk != last;
      Free(last);
      endChunk.next := null;
      forall i | 0 <= i < |cells| - 1
        ensures LinkedAt(i)
      {
        assert old(LinkedAt(i));
      }
    }

    /** Removes the front element; its chunk becomes the spare one when it was the
        last element of the chunk. */
    method Pop()
      requires Valid() && contents != []
      modifies Repr
      ensures Valid() && Repr == old(Repr)
      ensures contents == old(contents)[1..]
      ensures popped == old(popped) + 1 && cells == old(cells)[1..]
    {
      contents := contents[1..];
      MoveBegin();
    }

    /** Moves `begin` to the next slot. */
    method MoveBegin()
      requires PoolValid() && PlacesValid() && CellsValid() && |cells| > 1
      requires cells[0] == Address(beginChunk, beginPos)
      modifies `beginChunk, `beginPos, `spareChunk, `cells, `popped, `freed, pool`prev
      ensures PoolValid() && PlacesValid() && CellsValid()
      ensures popped == old(popped) + 1 && cells == old(cells)[1..]
      ensures cells[0] == Address(beginChunk, beginPos)
    {
      assert LinkedAt(0);
      beginPos := beginPos + 1;
      if beginPos == N {
        RetireFirstChunk();
      } else {
        AdvanceCells();
      }
    }

    ghost method AdvanceCells()
      requires PoolValid() && PlacesValid() && CellsValid() && |cells| > 1
      modifies `cells, `popped
      ensures PoolValid() && PlacesValid() && CellsValid()
      ensures popped == old(popped) + 1 && cells == old(cells)[1..]
    {
      cells, popped := cells[1..], popped + 1;
      forall i | 0 <= i < |cells| - 1
        ensures LinkedAt(i)
      {
        assert old(LinkedAt(i + 1));
      }
    }

    /** Makes the first chunk the spare one and frees the previous spare. */
    method RetireFirstChunk()
      requires PoolValid() && PlacesValid() && CellsValid() && |cells| > 1
      requires cells[0] == Address(beginChunk, N - 1) && beginPos == N && beginChunk.next != null
      modifies `beginChunk, `beginPos, `spareChunk, `cells, `popped, `freed, beginChunk.next`prev
      ensures PoolValid() && PlacesValid() && CellsValid()
      ensures popped == old(popped) + 1 && cells == old(cells)[1..]
      ensures cells[0] == Address(beginChunk, beginPos)
    {
      assert LinkedAt(0);
      var o := beginChunk;
      beginChunk := beginChunk.next;
      beginChunk.prev := null;
      beginPos := 0;
      cells, popped := cells[1..], popped + 1;
      assert forall i :: 0 <= i < |cells| ==> cells[i].chunk != o;
      // `spare_chunk.xchg (o)`
      var cs := spareChunk;
      spareChunk := o;
      if cs != null {
        Free(cs);
      }
      forall i | 0 <= i < |cells| - 1
        ensures LinkedAt(i)
      {
        assert old(LinkedAt(i + 1));
      }
    }
  }
}
