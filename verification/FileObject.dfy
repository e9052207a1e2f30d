/** The receiver's file as the code keeps it: a struct with a linked list of heap-allocated offsets. */
module FileObject {
  import opened Options
  import opened Bytes
  import opened Intervals
  import opened Checksum
  import opened LinkedList
  import R = Receiver

  class Offset {
    var start: nat
    var end: nat

    constructor (start: nat, end: nat)
      ensures this.start == start && this.end == end
    {
      this.start, this.end := start, end;
    }
  }

  /** The ranges a sequence of offset objects stands for. */
  ghost function Ranges(os: seq<Offset>, owned: set<Offset>): (gs: seq<Interval>)
    requires forall i :: 0 <= i < |os| ==> os[i] in owned
    reads owned
    ensures |gs| == |os| && forall i :: 0 <= i < |os| ==> gs[i] == Interval(os[i].start, os[i].end)
  {
    seq(|os|, i requires 0 <= i < |os| reads owned => Interval(os[i].start, os[i].end))
  }

  lemma EnclosingAt(gs: seq<Interval>, s: nat, e: nat, k: nat)
    requires k <= |gs| && (k < |gs| ==> Encloses(gs[k], s, e))
    requires forall j :: 0 <= j < k ==> !Encloses(gs[j], s, e)
    ensures FirstEnclosing(gs, s, e) == k
  {
  }

  class File {
    var missing: List<Offset>
    var data: seq<byte>
    var partial: uint32
    var eofSum: uint32
    var totalSize: nat
    var isTemp: bool
    var atDest: bool

    /** Every offset object this file may touch. */
    ghost var offsets: set<Offset>

    ghost predicate Valid()
      reads this`missing, this`offsets, missing, missing.nodes
    {
      && missing.Valid()
      && (forall i :: 0 <= i < |missing.contents| ==> missing.contents[i] in offsets)
      && (forall i, j :: 0 <= i < j < |missing.contents| ==> missing.contents[i] != missing.contents[j])
    }

    ghost function Gaps(): seq<Interval>
      requires Valid()
      reads this`missing, this`offsets, missing, missing.nodes, offsets
    {
      Ranges(missing.contents, offsets)
    }

    ghost function View(): R.File
      requires Valid()
      reads this, missing, missing.nodes, offsets
    {
      R.File(Gaps(), data, partial, eofSum, totalSize, isTemp, atDest)
    }

    /** A created, emptied destination file with nothing missing yet. */
    constructor ()
      ensures Valid() && View() == R.EmptyFile && fresh(missing) && fresh(missing.nodes) && fresh(offsets)
      ensures Gaps() == [] && data == [] && atDest && !isTemp
    {
      missing := new List<Offset>();
      data, partial, eofSum, totalSize, isTemp, atDest, offsets := [], 0, 0, 0, false, true, {};
    }

    /** Inserts the gap [0, size) in front. */
    method AddFirstOffset(size: nat)
      requires Valid()
      modifies this`offsets, missing, missing.nodes
      ensures Valid() && View() == R.AddFirstOffset(old(View()), size)
      ensures Gaps() == [Interval(0, size)] + old(Gaps())
      ensures fresh(missing.nodes - old(missing.nodes)) && fresh(offsets - old(offsets))
    {
      hide List.Valid;
      var o := new Offset(0, size);
      offsets := offsets + {o};
      missing.Insert(o, size);
      assert missing.contents == [o] + old(missing.contents);
    }

    /** Changes the bounds of gap `k` in place. */
    method SetBounds(o: Offset, ghost k: nat, start: nat, end: nat)
      requires Valid() && k < |missing.contents| && o == missing.contents[k]
      modifies o
      ensures missing.Valid() && missing.contents == old(missing.contents)
      ensures Valid() && Gaps() == old(Gaps())[..k] + [Interval(start, end)] + old(Gaps())[k + 1..]
      ensures o.start == start && o.end == end
    {
      hide List.Valid;
      ghost var gs := Gaps();
      o.start, o.end := start, end;
      assert Gaps() == gs[..k] + [Interval(start, end)] + gs[k + 1..];
    }

    /** Takes gap `k` out of the list. */
    method DropGap(node: Node<Offset>, ghost k: nat)
      requires Valid() && missing.At(node, k) && k < |missing.contents|
      modifies missing, missing.nodes
      ensures Valid() && Gaps() == old(Gaps())[..k] + old(Gaps())[k + 1..]
      ensures missing.nodes == old(missing.nodes)
    {
      ghost var gs, os := Gaps(), missing.contents;
      hide List.Valid, List.At;
      var _ := missing.RemoveNode(node, k);
      assert forall i, j :: 0 <= i < j < |os| ==> os[i] != os[j];
      assert Gaps() == gs[..k] + gs[k + 1..];
    }

    /** Links a new gap in after gap `k`. */
    method AddGapAfter(node: Node<Offset>, ghost k: nat, start: nat, end: nat)
      requires Valid() && missing.At(node, k) && k < |missing.contents|
      modifies this`offsets, missing, missing.nodes
      ensures Valid() && Gaps() == old(Gaps())[..k + 1] + [Interval(start, end)] + old(Gaps())[k + 1..]
      ensures |missing.contents| == |old(missing.contents)| + 1 && missing.contents[k] == old(missing.contents)[k]
      ensures fresh(missing.nodes - old(missing.nodes)) && fresh(offsets - old(offsets))
    {
      hide List.Valid;
      ghost var gs, os := Gaps(), missing.contents;
      var rest := new Offset(start, end);
      offsets := offsets + {rest};
      missing.LinkAfter(node, rest, start, k);
      assert Gaps() == gs[..k + 1] + [Interval(start, end)] + gs[k + 1..];
    }

    /** Makes two gaps of gap `k`, before `s` and from `e` on. */
    method SplitGap(node: Node<Offset>, ghost k: nat, o: Offset, s: nat, e: nat)
      requires Valid() && missing.At(node, k) && k < |missing.contents| && o == missing.contents[k]
      requires o in offsets && k < |Gaps()| && Gaps()[k] == Interval(o.start, o.end)
      modifies this`offsets, missing, missing.nodes, o
      ensures Valid() && Gaps() ==
        old(Gaps())[..k] + [Interval(old(o.start), s), Interval(e, old(o.end))] + old(Gaps())[k + 1..]
      ensures fresh(missing.nodes - old(missing.nodes)) && fresh(offsets - old(offsets))
    {
      hide List.Valid, List.At, Ranges;
      ghost var gs := Gaps();
      AddGapAfter(node, k, e, o.end);
      SetBounds(o, k, o.start, s);
      assert Gaps() == gs[..k] + [Interval(gs[k].start, s), Interval(e, gs[k].end)] + gs[k + 1..];
    }

    /** The first gap that encloses the segment, as `findNode` with `find_nak` finds it. */
    method FindNak(s: nat, e: nat) returns (node: Node?<Offset>, ghost k: nat)
      requires Valid()
      ensures k == FirstEnclosing(Gaps(), s, e)
      ensures node == null <==> k == |Gaps()|
      ensures node != null ==>
        k < |missing.contents| && missing.At(node, k) && node.element == Some(missing.contents[k])
    {
      var f := (o: Offset) reads o => Encloses(Interval(o.start, o.end), s, e);
      node, k := missing.FindNode(f);
      EnclosingAt(Gaps(), s, e, k);
    }

    /** Finds the gap that encloses the segment and carves the segment out of it in place. */
    method ReceiveOffset(s: nat, e: nat) returns (taken: bool)
      requires Valid()
      modifies this`offsets, missing, missing.nodes, offsets
      ensures Valid() && (Gaps(), taken) == Receive(old(Gaps()), s, e)
      ensures !taken ==> Gaps() == old(Gaps())
      ensures fresh(missing.nodes - old(missing.nodes)) && fresh(offsets - old(offsets))
    {
      hide List.Valid, Ranges, FirstEnclosing, List.At;
      ghost var gs := Gaps();
      var node, k := FindNak(s, e);
      if node == null {
        return false;
      }
      var o := node.element.value;
      assert o in offsets;
      hide Valid;
      taken := true;
      if s == o.start && e == o.end {
        DropGap(node, k);
        assert Gaps() == gs[..k] + [] + gs[k + 1..];
      } else if s == o.start && s < o.end {
        SetBounds(o, k, e, o.end);
      } else if e == o.end && s > o.start {
        SetBounds(o, k, o.start, s);
      } else {
        SplitGap(node, k, o, s, e);
      }
    }

    /** Renames the file, pops the last gap, moves its end and pushes it back; fails when there is none. */
    method ChangeTempToActual(size: nat) returns (ok: bool)
      requires Valid()
      modifies this, missing, missing.nodes, offsets
      ensures Valid() && View() == R.ChangeTempToActual(old(View()), size) && ok == (old(Gaps()) != [])
      ensures missing == old(missing)
      ensures fresh(missing.nodes - old(missing.nodes)) && offsets == old(offsets)
    {
      hide List.Valid, Ranges, Valid;
      atDest := true;
      ok := ExtendLastGap(size);
      if !ok {
        return;
      }
      isTemp := false;
      totalSize := size;
    }

    /** The gaps one NAK carries, gathered by iterating the list until `max` are taken. */
    method NakSegments(max: nat) returns (segments: seq<Interval>)
      requires Valid()
      ensures segments == R.Requested(Gaps(), max) && missing.count == |Gaps()|
    {
      segments := [];
      var cur := missing.head.next;
      ghost var k := 0;
      FirstCursor();
      CursorFacts(cur, k);
      hide List.Valid, Cursor, Ranges;
      while cur.next != null && cur != missing.tail
        invariant cur != null && Cursor(cur, k) && k <= |Gaps()|
        invariant (cur.next != null && cur != missing.tail) <==> k < |Gaps()|
        invariant segments == Gaps()[..Min(k, max)]
        decreases |Gaps()| - k
      {
        CursorFacts(cur, k);
        if |segments| != max {
          var o := cur.element.value;
          segments := segments + [Interval(o.start, o.end)];
        }
        cur := cur.next;
        k := k + 1;
        CursorFacts(cur, k);
      }
      assert missing.count == |Gaps()| by { CountIsLength(); }
    }

    lemma CountIsLength()
      requires Valid()
      ensures missing.count == |Gaps()|
    {
    }

    /** A cursor on element `k`, or on the tail sentinel when `k` is past the last. */
    ghost predicate Cursor(cur: Node?<Offset>, k: nat)
      reads this`missing, missing
    {
      k + 1 < |missing.spine| && cur == missing.spine[k + 1]
    }

    /** The guard of an iteration holds exactly while the cursor is on an element. */
    lemma CursorFacts(cur: Node?<Offset>, k: nat)
      requires Valid() && Cursor(cur, k)
      ensures cur != null && k <= |Gaps()|
      ensures (cur.next != null && cur != missing.tail) <==> k < |Gaps()|
      ensures k < |Gaps()| ==> Cursor(cur.next, k + 1) && cur.element.Some?
      ensures k < |Gaps()| ==> Gaps()[k] == Interval(cur.element.value.start, cur.element.value.end)
    {
      if k < |Gaps()| { assert cur.element == Some(missing.contents[k]); }
    }

    lemma FirstCursor()
      requires Valid()
      ensures Cursor(missing.head.next, 0)
    {
    }

    /** Start of the first gap and end of the last, read through the sentinels. */
    method Scope() returns (start: nat, end: nat)
      requires Valid() && Gaps() != []
      ensures start == Gaps()[0].start && end == Gaps()[|Gaps()| - 1].end
    {
      var first, last := missing.head.next, missing.tail.prev;
      assert first == missing.spine[1] && first.element == Some(missing.contents[0]);
      assert last == missing.spine[missing.count] && last.element == Some(missing.contents[missing.count - 1]);
      start, end := first.element.value.start, last.element.value.end;
    }

    /** Stores what EOF announces. */
    method RecordEof(size: nat, sum: uint32)
      requires Valid()
      modifies this`eofSum, this`totalSize
      ensures Valid() && View() == old(View()).(eofSum := sum, totalSize := size)
    {
      hide List.Valid, Ranges, Valid;
      eofSum, totalSize := sum, size;
    }

    method ExtendLastGap(size: nat) returns (ok: bool)
      requires Valid()
      modifies this`offsets, missing, missing.nodes, offsets
      ensures Valid() && ok == (old(Gaps()) != [])
      ensures Gaps() == if ok then R.ExtendLast(old(Gaps()), size) else old(Gaps())
      ensures fresh(missing.nodes - old(missing.nodes)) && offsets == old(offsets)
    {
      hide List.Valid;
      ghost var gs, os := Gaps(), missing.contents;
      var last := missing.Pop();
      if last == None {
        return false;
      }
      var offset := last.value;
      assert offset == os[|os| - 1] && offset in offsets;
      offset.end := size;
      missing.Push(offset, size);
      assert missing.contents == os;
      assert Gaps() == R.ExtendLast(gs, size);
      ok := true;
    }

    /** A data PDU body of `dataLen` octets at `at`: four octets of offset, then the segment. */
    method ProcessDataPacket(packet: array<byte>, at: nat, dataLen: nat)
      requires Valid() && 4 <= dataLen < 0x1_0000 && at + dataLen <= packet.Length
      requires dataLen == 4 || dataLen >= 8
      modifies this, missing, missing.nodes, offsets
      ensures Valid() && missing == old(missing)
      ensures View() == R.ProcessData(old(View()), Word(packet[..], at), packet[at + 4..at + dataLen])
      ensures fresh(missing.nodes - old(missing.nodes)) && fresh(offsets - old(offsets))
    {
      hide List.Valid, Ranges, Valid, Receive, WriteAt, SumWords, Quad;
      var offsetStart := Word(packet[..], at);
      var offsetEnd := Add32(offsetStart, dataLen - 4);
      var taken := ReceiveOffset(offsetStart, offsetEnd);
      if !taken {
        return;
      }
      var payload := packet[at + 4..at + dataLen];
      data := WriteAt(data, offsetStart, payload);
      if |payload| == 0 {
        assert payload == [];
        return;
      }
      var sum := CalcCheckSum(payload);
      partial := Add32(partial, sum);
    }
  }
}
