/** The bounded history of logs.go and its followers. Sequence numbers start at 1. */
module LogHub {
  import opened Common
  import LogLines

  const HISTORY_BYTES: int := 4194304
  const HISTORY_LINES: int := 8192

  datatype Entry = Entry(sequence: nat, line: seq<int>)

  function Bytes(entries: seq<Entry>): nat {
    if entries == [] then 0 else |entries[0].line| + Bytes(entries[1..])
  }

  lemma {:induction false} BytesAppend(entries: seq<Entry>, e: Entry)
    ensures Bytes(entries + [e]) == Bytes(entries) + |e.line|
  {
    if entries == [] {
      assert [] + [e] == [e] && [e][1..] == [];
    } else {
      assert (entries + [e])[0] == entries[0] && (entries + [e])[1..] == entries[1..] + [e];
      BytesAppend(entries[1..], e);
    }
  }

  predicate TooMuch(entries: seq<Entry>) {
    |entries| > HISTORY_LINES || Bytes(entries) > HISTORY_BYTES
  }

  /** The entries of the lines numbered from `from` to the end. */
  function Numbered(all: seq<seq<int>>, from: nat): (entries: seq<Entry>)
    requires from <= |all|
    ensures |entries| == |all| - from
    ensures forall i :: 0 <= i < |entries| ==> entries[i] == Entry(from + 1 + i, all[from + i])
    decreases |all| - from
  {
    if from == |all| then [] else [Entry(from + 1, all[from])] + Numbered(all, from + 1)
  }

  lemma {:induction false} NumberedAppend(all: seq<seq<int>>, from: nat, line: seq<int>)
    requires from <= |all|
    ensures Numbered(all + [line], from) == Numbered(all, from) + [Entry(|all| + 1, line)]
  {
  }

  lemma NumberedTail(all: seq<seq<int>>, from: nat, n: nat)
    requires from + n <= |all|
    ensures Numbered(all, from)[n..] == Numbered(all, from + n)
  {
  }

  /** The newest line alone always fits. */
  lemma NewestFits(all: seq<seq<int>>)
    requires all != [] && |all[|all| - 1]| <= LogLines.LINE_BYTES + |LogLines.TRUNCATED|
    ensures !TooMuch(Numbered(all, |all| - 1))
  {
    var newest := Numbered(all, |all| - 1);
    assert newest[1..] == [] && Bytes(newest) == |newest[0].line| + Bytes([]);
    assert |LogLines.TRUNCATED| == 15;
  }

  /** What evicting the oldest entry leaves, when there is too much. */
  lemma EvictOne(all: seq<seq<int>>, evicted: nat)
    requires evicted < |all| && TooMuch(Numbered(all, evicted))
    requires |all[|all| - 1]| <= LogLines.LINE_BYTES + |LogLines.TRUNCATED|
    ensures evicted + 1 < |all|
    ensures Numbered(all, evicted)[1..] == Numbered(all, evicted + 1)
    ensures Bytes(Numbered(all, evicted + 1)) == Bytes(Numbered(all, evicted)) - |all[evicted]|
  {
    NewestFits(all);
    NumberedTail(all, evicted, 1);
  }

  /** Every history that starts earlier, down to `from`, would be too much. */
  ghost predicate Needed(all: seq<seq<int>>, from: nat, to: nat) {
    forall kept :: from <= kept < to && kept <= |all| ==> TooMuch(Numbered(all, kept))
  }

  lemma NeededMore(all: seq<seq<int>>, from: nat, to: nat)
    requires Needed(all, from, to) && to <= |all| && TooMuch(Numbered(all, to))
    ensures Needed(all, from, to + 1)
  {
  }

  class Hub {
    var entries: seq<Entry>
    var bodyBytes: nat
    var nextSequence: nat
    var droppedBytes: nat
    ghost var all: seq<seq<int>>
    ghost var evicted: nat

    /** The history is the newest lines ever appended, numbered without gaps, within both limits. */
    ghost predicate Valid()
      reads this
    {
      && evicted <= |all| && entries == Numbered(all, evicted) && nextSequence == |all| + 1
      && bodyBytes == Bytes(entries) && !TooMuch(entries) && (all != [] ==> evicted < |all|)
    }

    constructor ()
      ensures Valid() && all == [] && droppedBytes == 0
    {
      entries, bodyBytes, nextSequence, droppedBytes, all, evicted := [], 0, 1, 0, [], 0;
    }

    /** append: the new line stays, and no more old lines leave than the limits demand. */
    method Append(line: seq<int>)
      requires Valid() && |line| <= LogLines.LINE_BYTES + |LogLines.TRUNCATED|
      modifies this
      ensures Valid() && all == old(all) + [line] && droppedBytes == old(droppedBytes) && evicted >= old(evicted)
      ensures Needed(all, old(evicted), evicted)
    {
      NumberedAppend(all, evicted, line);
      BytesAppend(entries, Entry(nextSequence, line));
      entries := entries + [Entry(nextSequence, line)];
      all := all + [line];
      nextSequence := nextSequence + 1;
      bodyBytes := bodyBytes + |line|;
      Trim();
    }

    /** The eviction loop of append. */
    method Trim()
      requires evicted < |all| && entries == Numbered(all, evicted) && bodyBytes == Bytes(entries) && nextSequence == |all| + 1
      requires |all[|all| - 1]| <= LogLines.LINE_BYTES + |LogLines.TRUNCATED|
      modifies this`entries, this`bodyBytes, this`evicted
      ensures Valid() && evicted >= old(evicted)
      ensures Needed(all, old(evicted), evicted)
    {
      while |entries| > HISTORY_LINES || bodyBytes > HISTORY_BYTES
        invariant old(evicted) <= evicted < |all| && entries == Numbered(all, evicted) && bodyBytes == Bytes(entries)
        invariant Needed(all, old(evicted), evicted)
        decreases |entries|
      {
        EvictOne(all, evicted);
        NeededMore(all, old(evicted), evicted);
        bodyBytes := bodyBytes - |entries[0].line|;
        entries := entries[1..];
        evicted := evicted + 1;
      }
    }

    method AddDropped(bytes: nat)
      requires Valid()
      modifies this`droppedBytes
      ensures Valid() && droppedBytes == old(droppedBytes) + bytes
    {
      if bytes == 0 { return; }
      droppedBytes := droppedBytes + bytes;
    }

    method Snapshot(lines: nat) returns (recent: seq<Entry>, next: nat, dropped: nat)
      requires Valid()
      ensures next == nextSequence && dropped == droppedBytes
      ensures |recent| == (if lines < |entries| then lines else |entries|) && recent == Numbered(all, |all| - |recent|)
    {
      var start := |entries| - lines;
      if start < 0 { start := 0; }
      NumberedTail(all, evicted, start);
      return entries[start..], nextSequence, droppedBytes;
    }

    /** after: the lines from `sequence` on that are still there. */
    method After(sequence: nat) returns (later: seq<Entry>, oldest: nat, next: nat, dropped: nat)
      requires Valid() && 1 <= sequence
      ensures oldest == evicted + 1 && next == nextSequence && dropped == droppedBytes
      ensures later == Numbered(all, if sequence < oldest then evicted else if sequence > |all| then |all| else sequence - 1)
    {
      oldest := nextSequence;
      if |entries| > 0 { oldest := entries[0].sequence; }
      var start := 0;
      if sequence >= oldest {
        start := sequence - oldest;
        if start > |entries| { start := |entries|; }
      }
      NumberedTail(all, evicted, start);
      return entries[start..], oldest, nextSequence, droppedBytes;
    }
  }

  // ---------------------------------------------------------------- followers

  /** What a follower writes: lines, and how many were evicted before it could read them. */
  datatype Event = Line(entry: Entry) | Gap(count: nat)

  /** The events tell of every line from number `from` up to `to`, once each and in order. */
  ghost predicate Covers(all: seq<seq<int>>, events: seq<Event>, from: nat, to: nat)
    decreases |events|
  {
    if events == [] then from == to
    else
      match events[0]
      case Gap(count) => count > 0 && Covers(all, events[1..], from + count, to)
      case Line(entry) =>
        && entry.sequence == from && 1 <= from <= |all| && entry.line == all[from - 1]
        && Covers(all, events[1..], from + 1, to)
  }

  lemma {:induction false} CoversMore(all: seq<seq<int>>, a: seq<Event>, b: seq<Event>, from: nat, middle: nat, to: nat)
    requires Covers(all, a, from, middle) && Covers(all, b, middle, to)
    ensures Covers(all, a + b, from, to)
    decreases |a|
  {
    if a == [] {
      assert a + b == b;
    } else {
      assert (a + b)[0] == a[0] && (a + b)[1..] == a[1..] + b;
      CoversMore(all, a[1..], b, match a[0] case Gap(count) => from + count case Line(_) => from + 1, middle, to);
    }
  }

  /** Later lines do not change what earlier events told. */
  lemma {:induction false} CoversStays(all: seq<seq<int>>, line: seq<int>, events: seq<Event>, from: nat, to: nat)
    requires Covers(all, events, from, to)
    ensures Covers(all + [line], events, from, to)
    decreases |events|
  {
    if events != [] {
      CoversStays(all, line, events[1..], match events[0] case Gap(count) => from + count case Line(_) => from + 1, to);
    }
  }

  function AsLines(entries: seq<Entry>): (events: seq<Event>)
    ensures |events| == |entries| && forall i :: 0 <= i < |entries| ==> events[i] == Line(entries[i])
  {
    if entries == [] then [] else [Line(entries[0])] + AsLines(entries[1..])
  }

  lemma {:induction false} LinesCover(all: seq<seq<int>>, from: nat)
    requires from <= |all|
    ensures Covers(all, AsLines(Numbered(all, from)), from + 1, |all| + 1)
    decreases |all| - from
  {
    if from < |all| {
      LinesCover(all, from + 1);
      assert Numbered(all, from)[1..] == Numbered(all, from + 1);
    }
  }

  /** After the gap, if any, and the lines that are left, everything is told. */
  lemma CatchesUp(all: seq<seq<int>>, written: seq<Event>, start: nat, cursor: nat, oldest: nat)
    requires Covers(all, written, start, cursor) && 1 <= cursor <= |all| + 1 && 1 <= oldest <= |all| + 1
    ensures
      var at := if cursor < oldest then oldest else cursor;
      var told := if cursor < oldest then written + [Gap(oldest - cursor)] else written;
      && Covers(all, told, start, at)
      && Covers(all, told + AsLines(Numbered(all, at - 1)), start, |all| + 1)
  {
    var at := if cursor < oldest then oldest else cursor;
    var told := if cursor < oldest then written + [Gap(oldest - cursor)] else written;
    if cursor < oldest {
      assert [Gap(oldest - cursor)][1..] == [];
      CoversMore(all, written, [Gap(oldest - cursor)], start, cursor, oldest);
    }
    LinesCover(all, at - 1);
    CoversMore(all, told, AsLines(Numbered(all, at - 1)), start, at, |all| + 1);
  }

  /** One connection that follows the log (handleConn). */
  class Follower {
    const hub: Hub
    var cursor: nat
    var dropped: nat
    var reported: nat
    var written: seq<Event>
    ghost var start: nat

    /** Everything from the first line sent up to the cursor has been written or reported missing. */
    ghost predicate Valid()
      reads this, hub
    {
      && hub.Valid() && 1 <= start <= cursor <= hub.nextSequence && Covers(hub.all, written, start, cursor)
      && reported == dropped <= hub.droppedBytes
    }

    constructor (hub: Hub, lines: nat)
      requires hub.Valid()
      ensures Valid() && this.hub == hub && cursor == hub.nextSequence
      ensures cursor - start == if lines < |hub.entries| then lines else |hub.entries|
    {
      var recent, next, lost := hub.Snapshot(lines);
      this.hub, cursor, dropped, reported := hub, next, lost, lost;
      written, start := AsLines(recent), |hub.all| + 1 - |recent|;
      LinesCover(hub.all, |hub.all| - |recent|);
    }

    /** One turn of the follower's loop. Afterwards it has caught up, and every gap is reported once. */
    method Poll()
      requires Valid()
      modifies this
      ensures Valid() && cursor == hub.nextSequence && reported == hub.droppedBytes && start == old(start)
      ensures old(written) <= written
    {
      var later, oldest, next, currentDropped := hub.After(cursor);
      CatchesUp(hub.all, written, start, cursor, oldest);
      if cursor < oldest { written := written + [Gap(oldest - cursor)]; }
      if currentDropped > dropped {
        reported := reported + (currentDropped - dropped);
        dropped := currentDropped;
      }
      if |later| > 0 {
        written := written + AsLines(later);
        cursor := next;
      }
    }
  }

  /** Appending keeps every follower's account true. */
  method AppendWhileFollowed(hub: Hub, follower: Follower, line: seq<int>)
    requires follower.Valid() && follower.hub == hub && |line| <= LogLines.LINE_BYTES + |LogLines.TRUNCATED|
    modifies hub
    ensures follower.Valid() && hub.all == old(hub.all) + [line]
  {
    CoversStays(hub.all, line, follower.written, follower.start, follower.cursor);
    hub.Append(line);
  }
}
