/** The line splitter of logs.go:212-239, and what the lines of a byte stream are. */
module LogLines {
  import opened Common

  const LINE_BYTES: int := 65536
  const NEWLINE: int := 10
  const RETURN: int := 13
  const TRUNCATED: seq<int> := [46, 46, 46, 32, 91, 116, 114, 117, 110, 99, 97, 116, 101, 100, 93]

  // ---------------------------------------------------------------- the lines of a stream

  /** The bodies of the complete lines, newlines removed. */
  function Bodies(stream: seq<int>): seq<seq<int>> {
    if NewlineAt(stream) == |stream| then []
    else [stream[..NewlineAt(stream)]] + Bodies(stream[NewlineAt(stream) + 1..])
  }

  /** What follows the last newline. */
  function Tail(stream: seq<int>): seq<int> {
    if NewlineAt(stream) == |stream| then stream else Tail(stream[NewlineAt(stream) + 1..])
  }

  function NewlineAt(stream: seq<int>): (i: nat)
    ensures i <= |stream| && (i < |stream| ==> stream[i] == NEWLINE)
    ensures forall k :: 0 <= k < i ==> stream[k] != NEWLINE
  {
    if stream == [] || stream[0] == NEWLINE then 0 else 1 + NewlineAt(stream[1..])
  }

  /** A body too long is cut and marked; otherwise one trailing carriage return goes. */
  function Rendered(body: seq<int>): seq<int> {
    if |body| > LINE_BYTES then body[..LINE_BYTES] + TRUNCATED
    else if body != [] && body[|body| - 1] == RETURN then body[..|body| - 1]
    else body
  }

  /** A line is its body without one carriage return at its end; beyond 64 KiB it is the first 64 KiB and the mark. */
  lemma RenderedIs(body: seq<int>)
    ensures |body| <= 65536 && (body == [] || body[|body| - 1] != 13) ==> Rendered(body) == body
    ensures |body| < 65536 ==> Rendered(body + [13]) == body
    ensures |body| > 65536 ==>
              && |Rendered(body)| == 65551 && Rendered(body)[..65536] == body[..65536]
              && Rendered(body)[65536..] == [46, 46, 46, 32, 91, 116, 114, 117, 110, 99, 97, 116, 101, 100, 93]
  {
  }

  function Lines(stream: seq<int>): (lines: seq<seq<int>>)
    ensures |lines| == |Bodies(stream)|
  {
    RenderAll(Bodies(stream))
  }

  function RenderAll(bodies: seq<seq<int>>): (lines: seq<seq<int>>)
    ensures |lines| == |bodies| && forall i :: 0 <= i < |lines| ==> lines[i] == Rendered(bodies[i])
  {
    if bodies == [] then [] else [Rendered(bodies[0])] + RenderAll(bodies[1..])
  }

  // ---------------------------------------------------------------- the splitter

  /** The splitter's state after a stream stands for the unfinished line. */
  predicate Remembers(pending: seq<int>, discarding: bool, tail: seq<int>) {
    if |tail| > LINE_BYTES then discarding && pending == tail[..LINE_BYTES] else !discarding && pending == tail
  }

  lemma {:induction false} OneMoreByte(stream: seq<int>, value: int)
    ensures value == NEWLINE ==> Bodies(stream + [value]) == Bodies(stream) + [Tail(stream)] && Tail(stream + [value]) == []
    ensures value != NEWLINE ==> Bodies(stream + [value]) == Bodies(stream) && Tail(stream + [value]) == Tail(stream) + [value]
    decreases |stream|
  {
    var i, more := NewlineAt(stream), stream + [value];
    if i < |stream| {
      NewlineIs(more, i);
      assert more[..i] == stream[..i] && more[i + 1..] == stream[i + 1..] + [value];
      OneMoreByte(stream[i + 1..], value);
      if value == NEWLINE { Associative([stream[..i]], Bodies(stream[i + 1..]), [Tail(stream)]); }
    } else if value == NEWLINE {
      NewlineIs(more, i);
      assert more[..i] == stream && more[i + 1..] == [];
      assert Bodies([]) == [] && Tail([]) == [];
    } else {
      assert stream[..|stream|] == stream;
      NewlineIs(more, |more|);
    }
  }

  lemma {:induction false} NewlineIs(stream: seq<int>, i: nat)
    requires i <= |stream| && (i < |stream| ==> stream[i] == NEWLINE)
    requires forall k :: 0 <= k < i ==> stream[k] != NEWLINE
    ensures NewlineAt(stream) == i
  {
    if i > 0 { NewlineIs(stream[1..], i - 1); }
  }

  lemma {:induction false} RenderAppend(bodies: seq<seq<int>>, body: seq<int>)
    ensures RenderAll(bodies + [body]) == RenderAll(bodies) + [Rendered(body)]
  {
  }

  /** The byte loop of consume. The lines sent to the hub are those of the stream so far, however it was cut. */
  class Splitter {
    var pending: seq<int>
    var discarding: bool
    var emitted: seq<seq<int>>
    ghost var stream: seq<int>

    ghost predicate Valid()
      reads this
    {
      emitted == Lines(stream) && Remembers(pending, discarding, Tail(stream))
    }

    constructor ()
      ensures Valid() && stream == []
    {
      pending, discarding, emitted, stream := [], false, [], [];
      assert Bodies([]) == [] && Tail([]) == [];
    }

    method Consume(chunk: seq<int>)
      requires Valid()
      modifies this
      ensures Valid() && stream == old(stream) + chunk
    {
      for i := 0 to |chunk|
        invariant Valid() && stream == old(stream) + chunk[..i]
      {
        ConsumeByte(chunk[i]);
        Associative(old(stream), chunk[..i], [chunk[i]]);
        assert chunk[..i + 1] == chunk[..i] + [chunk[i]];
      }
      assert chunk[..|chunk|] == chunk;
    }

    /** The body of that loop. */
    method ConsumeByte(value: int)
      requires Valid()
      modifies this
      ensures Valid() && stream == old(stream) + [value]
    {
      ghost var tail := Tail(stream);
      OneMoreByte(stream, value);
      if value == NEWLINE {
        RenderAppend(Bodies(stream), tail);
        if discarding {
          emitted := emitted + [pending + TRUNCATED];
        } else {
          if |pending| > 0 && pending[|pending| - 1] == RETURN { pending := pending[..|pending| - 1]; }
          emitted := emitted + [pending];
        }
        pending, discarding := [], false;
      } else if discarding {
        assert (tail + [value])[..LINE_BYTES] == tail[..LINE_BYTES];
      } else if |pending| == LINE_BYTES {
        discarding := true;
        assert (tail + [value])[..LINE_BYTES] == tail;
      } else {
        pending := pending + [value];
      }
      stream := stream + [value];
    }
  }

  /** How a stream is cut into chunks does not change its lines. */
  method SplitChunks(chunks: seq<seq<int>>) returns (lines: seq<seq<int>>)
    ensures lines == Lines(Flatten(chunks))
  {
    var splitter := new Splitter();
    for i := 0 to |chunks|
      invariant splitter.Valid() && splitter.stream == Flatten(chunks[..i])
    {
      splitter.Consume(chunks[i]);
      assert chunks[..i + 1] == chunks[..i] + [chunks[i]];
      FlattenAppend(chunks[..i], [chunks[i]]);
      assert Flatten([chunks[i]]) == chunks[i] + Flatten([]) == chunks[i];
    }
    assert chunks[..|chunks|] == chunks;
    return splitter.emitted;
  }

  /** No line is longer than the limit and the mark. */
  lemma LinesAreShort(stream: seq<int>, i: nat)
    requires i < |Lines(stream)|
    ensures |Lines(stream)[i]| <= LINE_BYTES + |TRUNCATED|
  {
  }

  /** The bodies and the tail are the stream: nothing but newlines is left out of them. */
  lemma JoinedFirst(body: seq<int>, bodies: seq<seq<int>>, tail: seq<int>)
    ensures Joined([body] + bodies) + tail == body + [NEWLINE] + (Joined(bodies) + tail)
  {
    assert ([body] + bodies)[0] == body && ([body] + bodies)[1..] == bodies;
    Associative(body + [NEWLINE], Joined(bodies), tail);
  }

  lemma {:induction false} BodiesAreTheStream(stream: seq<int>)
    ensures Joined(Bodies(stream)) + Tail(stream) == stream
    decreases |stream|
  {
    var i := NewlineAt(stream);
    if i < |stream| {
      var rest := stream[i + 1..];
      BodiesAreTheStream(rest);
      assert stream == stream[..i] + [NEWLINE] + rest;
      JoinedFirst(stream[..i], Bodies(rest), Tail(rest));
    } else {
      assert stream[..i] == stream;
    }
  }

  lemma {:induction false} BodiesHaveNoNewline(stream: seq<int>)
    ensures forall i :: 0 <= i < |Bodies(stream)| ==> NEWLINE !in Bodies(stream)[i]
    ensures NEWLINE !in Tail(stream)
    decreases |stream|
  {
    if NewlineAt(stream) < |stream| { BodiesHaveNoNewline(stream[NewlineAt(stream) + 1..]); }
  }

  function Joined(bodies: seq<seq<int>>): seq<int> {
    if bodies == [] then [] else bodies[0] + [NEWLINE] + Joined(bodies[1..])
  }
}
