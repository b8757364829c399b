/**
  The circular packet array of import/pkt_Queue.c.

  `front` and `rear` are both -1 when the queue is empty; otherwise they delimit, inclusively
  and cyclically, the cells in use.  The class is proved to refine a FIFO queue that holds at
  most MAX_QUEUE_LENGTH packets.
 */
module PacketQueue {

  const MAX_QUEUE_LENGTH: nat := 512
  const MESSAGE_LENGTH: nat := 65507
  const NETWORK_ADDR_LENGTH: nat := 16

  const NUL: char := 0 as char

  /** `address` and `content` are C char arrays, NUL-padded to their full length. */
  datatype Packet = Packet(isNull: bool, address: string, port: nat, content: string, contentSize: nat)

  datatype AddResult = Added | Full | IsFree | Oversize

  /** memset with 0 followed by `strncpy(dst, src, n)` on an array of `capacity` chars: the
      characters of `src` up to its first NUL, the rest NUL.  `src` is what the source can be
      read for; a C string shorter than `n` ends with it. */
  function StrNCopy(src: string, n: nat, capacity: nat): (dst: string)
    ensures |dst| == capacity
  {
    var k := FirstNul(src, if n < |src| then n else |src|);
    seq(capacity, i requires 0 <= i < capacity => if i < k then src[i] else NUL)
  }

  /** The index of the first NUL among the first `n` characters, `n` if there is none. */
  function FirstNul(s: string, n: nat): (k: nat)
    requires n <= |s|
    ensures k <= n && (k < n ==> s[k] == NUL)
    ensures forall i | 0 <= i < k :: s[i] != NUL
  {
    if n == 0 then 0
    else
      var k := FirstNul(s, n - 1);
      if k < n - 1 || s[n - 1] == NUL then k else n
  }

  /** The stored bytes up to the recorded size are the sent bytes, if and only if the sender's
      bytes carry no NUL before one that is not NUL. */
  lemma ContentComesBackIff(src: string, n: nat)
    requires n <= |src| && n <= MESSAGE_LENGTH
    ensures StrNCopy(src, n, MESSAGE_LENGTH)[..n] == src[..n] <==>
            (forall i, j | 0 <= i < j < n :: src[i] == NUL ==> src[j] == NUL)
  {
    var k := FirstNul(src, n);
    var dst := StrNCopy(src, n, MESSAGE_LENGTH);
    if forall i, j | 0 <= i < j < n :: src[i] == NUL ==> src[j] == NUL {
      assert forall i | k <= i < n :: src[i] == NUL;
      assert forall i | 0 <= i < n :: dst[..n][i] == src[..n][i];
    } else {
      var i, j :| 0 <= i < j < n && src[i] == NUL && src[j] != NUL;
      assert i >= k;
      assert dst[..n][j] == NUL && src[..n][j] != NUL;
    }
  }

  /** The packet that `addpkt` stores. */
  function MakePacket(address: string, port: nat, content: string, size: nat): Packet
  {
    Packet(false, StrNCopy(address, NETWORK_ADDR_LENGTH, NETWORK_ADDR_LENGTH), port,
           StrNCopy(content, size, MESSAGE_LENGTH), size)
  }

  /** Character `i` is there and belongs to the C string: no NUL is before it or in its place. */
  ghost predicate InString(src: string, i: nat) { i < |src| && NUL !in src[..i + 1] }

  /** `dst` has `capacity` characters: those of the C string among the first `n`, then NULs. */
  ghost predicate HoldsText(dst: string, src: string, n: nat, capacity: nat) {
    |dst| == capacity &&
    forall i | 0 <= i < capacity :: dst[i] == if i < n && InString(src, i) then src[i] else NUL
  }

  /** The packet stores what was passed to `addpkt`. */
  ghost predicate Stores(p: Packet, address: string, port: nat, content: string, size: nat) {
    && !p.isNull && p.port == port && p.contentSize == size
    && HoldsText(p.address, address, NETWORK_ADDR_LENGTH, NETWORK_ADDR_LENGTH)
    && HoldsText(p.content, content, size, MESSAGE_LENGTH)
  }

  lemma CopyHoldsText(src: string, n: nat, capacity: nat)
    ensures HoldsText(StrNCopy(src, n, capacity), src, n, capacity)
  {
    var m := if n < |src| then n else |src|;
    var k := FirstNul(src, m);
    forall i | 0 <= i < m
      ensures InString(src, i) <==> i < k
    {
      if i >= k { assert src[..i + 1][k] == NUL; }
    }
  }

  lemma MadeStores(address: string, port: nat, content: string, size: nat)
    ensures Stores(MakePacket(address, port, content, size), address, port, content, size)
  {
    CopyHoldsText(address, NETWORK_ADDR_LENGTH, NETWORK_ADDR_LENGTH);
    CopyHoldsText(content, size, MESSAGE_LENGTH);
    hide HoldsText, StrNCopy;
  }

  /** What `get_pkt` returns from an empty queue. */
  function BlankPacket(): Packet {
    Packet(true, Zeros(NETWORK_ADDR_LENGTH), 0, Zeros(MESSAGE_LENGTH), 0)
  }

  function Zeros(n: nat): string { seq(n, _ => NUL) }

  function Cleared(p: Packet): (r: Packet)
    ensures r.isNull
  {
    p.(isNull := true, content := Zeros(MESSAGE_LENGTH), address := Zeros(NETWORK_ADDR_LENGTH), port := 0)
  }

  /** The cell of the `k`-th oldest packet. */
  function Cell(front: int, k: int): int {
    if front + k < MAX_QUEUE_LENGTH then front + k else front + k - MAX_QUEUE_LENGTH
  }

  /** The cells hold `contents` from `front` on, around the end, and are unused elsewhere. */
  ghost predicate Window(cells: seq<Packet>, front: int, contents: seq<Packet>) {
    && |cells| == MAX_QUEUE_LENGTH && |contents| <= MAX_QUEUE_LENGTH && (contents == [] || 0 <= front < MAX_QUEUE_LENGTH)
    && (forall k | 0 <= k < |contents| :: cells[Cell(front, k)] == contents[k] && !contents[k].isNull)
    && (forall i | 0 <= i < |cells| && IsOutside(i, front, |contents|) :: cells[i].isNull)
  }

  /** Cell `i` is none of the `n` from `front` on. */
  ghost predicate IsOutside(i: int, front: int, n: nat) { forall k | 0 <= k < n :: i != Cell(front, k) }

  lemma WindowAdds(cells: seq<Packet>, front: int, contents: seq<Packet>, p: Packet)
    requires Window(cells, front, contents) && 0 <= front < MAX_QUEUE_LENGTH && |contents| < MAX_QUEUE_LENGTH && !p.isNull
    ensures Window(cells[Cell(front, |contents|) := p], front, contents + [p])
  {
    var n, next := |contents|, cells[Cell(front, |contents|) := p];
    assert forall k | 0 <= k < n :: Cell(front, k) != Cell(front, n);
    forall i | 0 <= i < MAX_QUEUE_LENGTH && IsOutside(i, front, n + 1)
      ensures next[i].isNull
    {
      assert i != Cell(front, n);
      assert IsOutside(i, front, n);
    }
  }

  lemma WindowDrops(cells: seq<Packet>, front: int, contents: seq<Packet>, p: Packet)
    requires Window(cells, front, contents) && contents != [] && p.isNull
    ensures Window(cells[front := p], Cell(front, 1), contents[1..])
  {
    var next, rest := cells[front := p], contents[1..];
    assert Cell(front, 0) == front;
    assert forall k | 0 <= k < |rest| :: Cell(Cell(front, 1), k) == Cell(front, k + 1) != front;
    forall i | 0 <= i < MAX_QUEUE_LENGTH && i != front && IsOutside(i, Cell(front, 1), |rest|)
      ensures IsOutside(i, front, |contents|)
    {
      forall k | 0 <= k < |contents|
        ensures i != Cell(front, k)
      {
        if k > 0 { assert i != Cell(Cell(front, 1), k - 1); }
      }
    }
  }

  /** An empty window may start anywhere. */
  lemma EmptyWindow(cells: seq<Packet>, front: int, other: int)
    requires Window(cells, front, [])
    ensures Window(cells, other, []) && forall i | 0 <= i < MAX_QUEUE_LENGTH :: cells[i].isNull
  {
  }

  /** `front` and `rear` around `n` cells. */
  predicate Bounds(front: int, rear: int, n: nat) {
    if n == 0 then front == -1 && rear == -1 else 0 <= front < MAX_QUEUE_LENGTH && rear == Cell(front, n - 1)
  }

  class Queue {
    var front: int
    var rear: int
    var cells: array<Packet>
    var isFree: bool

    /** The queue's packets, oldest first. */
    ghost var contents: seq<Packet>

    ghost predicate Valid()
      reads this, cells
    {
      && cells.Length == MAX_QUEUE_LENGTH && |contents| <= MAX_QUEUE_LENGTH
      && Bounds(front, rear, |contents|)
      && Window(cells[..], front, contents)
    }

    /** A cell is in use exactly inside the window. */
    lemma InUseIffInWindow(i: nat)
      requires Valid() && i < MAX_QUEUE_LENGTH
      ensures !cells[i].isNull <==> exists k :: 0 <= k < |contents| && i == Cell(front, k)
    {
      assert cells[..][i] == cells[i];
      if k :| 0 <= k < |contents| && i == Cell(front, k) {
        assert cells[..][Cell(front, k)] == contents[k];
      }
    }

    /** `init_Packet_Queue`. */
    constructor ()
      ensures Valid() && contents == [] && !isFree
    {
      isFree, front, rear := false, -1, -1;
      cells := new Packet[MAX_QUEUE_LENGTH](_ => BlankPacket());
      contents := [];
    }

    /** `is_null`. */
    predicate IsNull()
      reads this
    {
      front == -1 && rear == -1
    }

    /** `is_full`. */
    predicate IsFull()
      reads this
    {
      front == rear + 1 || (front == 0 && rear == MAX_QUEUE_LENGTH - 1)
    }

    lemma NullIffEmpty()
      requires Valid()
      ensures IsNull() <==> contents == []
    {
    }

    lemma FullIffAtCapacity()
      requires Valid()
      ensures IsFull() <==> |contents| == MAX_QUEUE_LENGTH
    {
    }

    /** `queue_len`; the last branch of the source is never reached. */
    function Length(): (len: int)
      requires Valid()
      reads this, cells
      ensures len == |contents|
    {
      if front == 0 && rear == 0 then 1
      else if front == -1 && rear == -1 then 0
      else if front == rear then 1
      else if rear > front then rear - front + 1
      else MAX_QUEUE_LENGTH - front + rear + 1
    }

    /** `addpkt`. */
    method Add(address: string, port: nat, content: string, size: nat) returns (r: AddResult)
      requires Valid()
      modifies this, cells
      ensures Valid() && cells == old(cells) && isFree == old(isFree)
      ensures r == if size > MESSAGE_LENGTH then Oversize
                   else if old(isFree) then IsFree
                   else if |old(contents)| == MAX_QUEUE_LENGTH then Full else Added
      ensures contents == if r == Added then old(contents) + [MakePacket(address, port, content, size)]
                          else old(contents)
      ensures r == Added ==> Stores(contents[|contents| - 1], address, port, content, size)
    {
      MadeStores(address, port, content, size);
      hide Stores;
      if size > MESSAGE_LENGTH { return Oversize; }
      if isFree { return IsFree; }
      FullIffAtCapacity();
      if IsFull() { return Full; }
      hide Window, StrNCopy;
      ghost var was := cells[..];
      if IsNull() {
        EmptyWindow(was, front, 0);
        front := 0;
        rear := 0;
      } else if rear == MAX_QUEUE_LENGTH - 1 {
        rear := 0;
      } else {
        rear := rear + 1;
      }
      var p := MakePacket(address, port, content, size);
      WindowAdds(was, front, contents, p);
      cells[rear] := p;
      assert cells[..] == was[Cell(front, |contents|) := p];
      contents := contents + [p];
      return Added;
    }

    /** `get_pkt`. */
    method Get() returns (p: Packet)
      requires Valid()
      modifies this, cells
      ensures Valid() && cells == old(cells) && isFree == old(isFree)
      ensures old(contents) == [] ==> p == BlankPacket() && contents == []
      ensures old(contents) != [] ==> p == old(contents)[0] && contents == old(contents)[1..]
    {
      if IsNull() { return BlankPacket(); }
      p := cells[front];
      assert p == contents[0] by { assert cells[..][Cell(front, 0)] == cells[front]; }
      Delete();
    }

    /** `delpkt`. */
    method Delete()
      requires Valid()
      modifies this, cells
      ensures Valid() && cells == old(cells) && isFree == old(isFree)
      ensures contents == if old(contents) == [] then [] else old(contents)[1..]
    {
      hide *;
      NullIffEmpty();
      Parts();
      if IsNull() { return; }
      ghost var was, n := cells[..], |contents|;
      WindowDrops(was, front, contents, Cleared(cells[front]));
      cells[front] := Cleared(cells[front]);
      assert cells[..] == was[front := Cleared(was[front])];
      contents := contents[1..];
      Shrink(n, cells[..], contents);
      Whole();
    }

    lemma Parts()
      requires Valid()
      ensures cells.Length == MAX_QUEUE_LENGTH && |contents| <= MAX_QUEUE_LENGTH && (contents != [] ==> 0 <= front < MAX_QUEUE_LENGTH)
      ensures Bounds(front, rear, |contents|) && Window(cells[..], front, contents)
    {
    }

    lemma Whole()
      requires cells.Length == MAX_QUEUE_LENGTH && |contents| <= MAX_QUEUE_LENGTH
      requires Bounds(front, rear, |contents|) && Window(cells[..], front, contents)
      ensures Valid()
    {
    }

    /** The indices once the oldest cell is given up. */
    method Shrink(ghost n: nat, ghost b: seq<Packet>, ghost rest: seq<Packet>)
      requires n > 0 && Bounds(front, rear, n) && n <= MAX_QUEUE_LENGTH && |rest| == n - 1 && Window(b, Cell(front, 1), rest)
      modifies `front, `rear
      ensures Bounds(front, rear, n - 1) && Window(b, front, rest)
    {
      if front == rear {
        EmptyWindow(b, Cell(front, 1), -1);
        front := -1;
        rear := -1;
      } else if front == MAX_QUEUE_LENGTH - 1 {
        front := 0;
      } else {
        front := front + 1;
      }
    }

    /** `Free_Packet_Queue`: the deleting loop ends, and afterwards nothing can be added. */
    method Free()
      requires Valid()
      modifies this, cells
      ensures Valid() && contents == [] && isFree
      ensures forall i | 0 <= i < MAX_QUEUE_LENGTH :: cells[i].isNull
    {
      isFree := true;
      while !IsNull()
        invariant Valid() && cells == old(cells) && isFree
        decreases |contents|
      {
        Delete();
      }
      EmptyWindow(cells[..], front, front);
      for i := 0 to MAX_QUEUE_LENGTH
        invariant Valid() && contents == [] && cells == old(cells) && isFree
        invariant forall k | 0 <= k < MAX_QUEUE_LENGTH :: cells[k].isNull
      {
        cells[i] := cells[i].(isNull := true);
      }
    }
  }
}
