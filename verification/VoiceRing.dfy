/**
 The single-producer single-consumer ring of realms_voice.cpp:41-75. First the ring by itself, then every
 interleaving of the two threads: each loads the other's index (possibly an old value), copies element by
 element, and publishes. Indices count elements since the start and do not wrap.
 */
module VoiceRing {
  import opened Common

  /** Different positions closer than the capacity use different slots. */
  lemma SlotsDiffer(a: nat, b: nat, capacity: nat)
    requires capacity > 0 && a < b < a + capacity
    ensures a % capacity != b % capacity
  {
    if a % capacity == b % capacity {
      Distributes(b / capacity, a / capacity, capacity);
      SmallMultiple(b / capacity - a / capacity, capacity, b - a);
    }
  }

  // ---------------------------------------------------------------- the ring by itself

  function Least(a: int, b: int): int {
    if a < b then a else b
  }

  /** The slot of position `i`. */
  function Slot(i: nat, capacity: nat): (slot: nat)
    requires capacity > 0
    ensures slot < capacity
  {
    i % capacity
  }

  /** The elements from position `from` up to position `to`. */
  ghost function Window<T>(data: seq<T>, from: nat, to: nat): (w: seq<T>)
    requires |data| > 0 && from <= to
    ensures |w| == to - from
    ensures forall i :: 0 <= i < to - from ==> w[i] == data[Slot(from + i, |data|)]
  {
    seq(to - from, i requires 0 <= i < to - from => data[Slot(from + i, |data|)])
  }

  lemma WindowNext<T>(data: seq<T>, from: nat, to: nat)
    requires |data| > 0 && from <= to
    ensures Window(data, from, to + 1) == Window(data, from, to) + [data[Slot(to, |data|)]]
  {
  }

  lemma WindowSplit<T>(data: seq<T>, from: nat, middle: nat, to: nat)
    requires |data| > 0 && from <= middle <= to
    ensures Window(data, from, to) == Window(data, from, middle) + Window(data, middle, to)
  {
  }

  /** Writing the next free slot leaves a window that is not yet full as it was. */
  lemma WindowKept<T>(data: seq<T>, from: nat, to: nat, element: T)
    requires |data| > 0 && from <= to < from + |data|
    ensures Window(data[Slot(to, |data|) := element], from, to) == Window(data, from, to)
  {
    var after := data[Slot(to, |data|) := element];
    var w, v := Window(after, from, to), Window(data, from, to);
    forall i | 0 <= i < to - from ensures w[i] == v[i] {
      SlotsDiffer(from + i, to, |data|);
      assert w[i] == after[Slot(from + i, |data|)];
    }
  }

  class Ring<T(0)> {
    const capacity: nat
    const data: array<T>
    var read: nat
    var write: nat

    ghost predicate Valid()
      reads this
    {
      capacity > 0 && data.Length == capacity && read <= write <= read + capacity
    }

    /** The elements between the indices, oldest first. */
    ghost function Contents(): seq<T>
      requires Valid()
      reads this, data
    {
      Window(data[..], read, write)
    }

    constructor (capacity: nat)
      requires capacity > 0
      ensures Valid() && Contents() == [] && fresh(data) && this.capacity == capacity
    {
      this.capacity := capacity;
      data := new T[capacity];
      read, write := 0, 0;
    }

    /** push: as many elements as fit, in order. */
    method Push(source: seq<T>) returns (count: nat)
      requires Valid()
      modifies this`write, data
      ensures Valid() && count == Least(|source|, capacity - |old(Contents())|)
      ensures Contents() == old(Contents()) + source[..count]
    {
      var start := write;
      count := Least(|source|, capacity - (start - read));
      for i := 0 to count
        invariant write == start && Window(data[..], read, start + i) == old(Contents()) + source[..i]
      {
        ghost var before := data[..];
        WindowKept(before, read, start + i, source[i]);
        data[Slot(start + i, capacity)] := source[i];
        assert data[..] == before[Slot(start + i, capacity) := source[i]];
        WindowNext(data[..], read, start + i);
        assert source[..i + 1] == source[..i] + [source[i]];
      }
      write := start + count;
    }

    /** pop: the oldest elements, in order, up to `count` of them. */
    method Pop(count: nat) returns (target: seq<T>)
      requires Valid()
      modifies this`read
      ensures Valid() && |target| == Least(count, |old(Contents())|)
      ensures old(Contents()) == target + Contents()
    {
      var start := read;
      var taken := Least(count, write - start);
      target := [];
      for i := 0 to taken
        invariant target == Window(data[..], start, start + i)
      {
        WindowNext(data[..], start, start + i);
        target := target + [data[Slot(start + i, capacity)]];
      }
      WindowSplit(data[..], start, start + taken, write);
      read := start + taken;
    }

    method Size() returns (n: nat)
      requires Valid()
      ensures n == |Contents()|
    {
      n := Least(capacity, write - read);
    }

    method Front() returns (element: Option<T>)
      requires Valid()
      ensures element == if Contents() == [] then None else Some(Contents()[0])
    {
      var n := Size();
      if n == 0 { return None; }
      return Some(data[Slot(read, capacity)]);
    }
  }

  // ---------------------------------------------------------------- two threads

  /** Where a push is: `copied` of the first `count` elements of `source` are in their slots. */
  datatype Producer<T> = Waiting | Pushing(source: seq<T>, count: nat, copied: nat)

  /** Where a pop is; `keep` is false when the elements are only discarded. */
  datatype Consumer<T> = Resting | Popping(keep: bool, wanted: nat, got: seq<T>)

  /** The shared ring, both threads, what each last saw of the other's index, and the history. */
  datatype Shared<T> = Shared(
    data: seq<T>, read: nat, write: nat, producer: Producer<T>, consumer: Consumer<T>,
    seenRead: nat, seenWrite: nat, pushed: seq<T>, popped: seq<T>)

  datatype Step<T> =
    | LoadRead(source: seq<T>, seen: nat)     // push: load both indices, fix the count
    | CopyIn                                  // push: one element
    | PublishWrite                            // push: store the write index
    | LoadWrite(keep: bool, asked: nat, seen: nat)
    | CopyOut
    | PublishRead

  /** A load returns the current value or an older one, but never one older than this thread saw before. */
  predicate Enabled<T>(s: Shared<T>, step: Step<T>) {
    match step
    case LoadRead(source, seen) => s.producer.Waiting? && s.seenRead <= seen <= s.read
    case CopyIn => s.producer.Pushing? && s.producer.copied < s.producer.count
    case PublishWrite => s.producer.Pushing? && s.producer.copied == s.producer.count
    case LoadWrite(_, _, seen) => s.consumer.Resting? && s.seenWrite <= seen <= s.write
    case CopyOut => s.consumer.Popping? && s.consumer.keep && |s.consumer.got| < s.consumer.wanted
    case PublishRead => s.consumer.Popping? && (s.consumer.keep ==> |s.consumer.got| == s.consumer.wanted)
  }

  /**
     Unread slots hold what was pushed; a push writes only free slots; a pop reads only published ones; and what
     each thread last saw is enough to make its unsigned subtraction exact.
   */
  ghost predicate Ok<T>(s: Shared<T>) {
    && |s.data| > 0 && s.read <= s.write <= s.read + |s.data|
    && s.seenRead <= s.read && s.write <= s.seenRead + |s.data|
    && s.read <= s.seenWrite <= s.write
    && |s.pushed| == s.write && s.popped == s.pushed[..s.read]
    && (forall i :: s.read <= i < s.write ==> s.data[i % |s.data|] == s.pushed[i])
    && ProducerOk(s.producer, s.data, s.seenRead, s.write)
    && ConsumerOk(s.consumer, s.pushed, s.read, s.seenWrite)
  }

  ghost predicate ProducerOk<T>(p: Producer<T>, data: seq<T>, seenRead: nat, write: nat)
    requires |data| > 0
  {
    p.Pushing? ==>
      && p.copied <= p.count <= |p.source| && write + p.count <= seenRead + |data|
      && forall j :: 0 <= j < p.copied ==> data[(write + j) % |data|] == p.source[j]
  }

  ghost predicate ConsumerOk<T>(c: Consumer<T>, pushed: seq<T>, read: nat, seenWrite: nat) {
    c.Popping? ==>
      && read + c.wanted <= seenWrite <= |pushed| && |c.got| <= c.wanted
      && c.got == pushed[read..read + |c.got|]
  }

  function Next<T>(s: Shared<T>, step: Step<T>): Shared<T>
    requires |s.data| > 0 && Enabled(s, step)
    requires step.LoadRead? ==> s.write <= step.seen + |s.data|
    requires step.CopyIn? ==> s.producer.copied < |s.producer.source|
    requires step.PublishWrite? ==> s.producer.count <= |s.producer.source|
    requires step.LoadWrite? ==> s.read <= step.seen
    requires step.PublishRead? ==> s.read + s.consumer.wanted <= |s.pushed|
  {
    match step
    case LoadRead(source, seen) =>
      s.(producer := Pushing(source, Least(|source|, |s.data| - (s.write - seen)), 0), seenRead := seen)
    case CopyIn =>
      var p := s.producer;
      s.(data := s.data[(s.write + p.copied) % |s.data| := p.source[p.copied]], producer := p.(copied := p.copied + 1))
    case PublishWrite =>
      var p := s.producer;
      s.(write := s.write + p.count, pushed := s.pushed + p.source[..p.count], producer := Waiting)
    case LoadWrite(keep, asked, seen) =>
      s.(consumer := Popping(keep, Least(asked, seen - s.read), []), seenWrite := seen)
    case CopyOut =>
      var c := s.consumer;
      s.(consumer := c.(got := c.got + [s.data[(s.read + |c.got|) % |s.data|]]))
    case PublishRead =>
      var c := s.consumer;
      s.(read := s.read + c.wanted, consumer := Resting,
         popped := s.popped + if c.keep then c.got else s.pushed[s.read..s.read + c.wanted])
  }

  /** The subtractions of push and pop never wrap, and no step leaves its arrays. */
  lemma StepDefined<T>(s: Shared<T>, step: Step<T>)
    requires Ok(s) && Enabled(s, step)
    ensures step.LoadRead? ==> s.write <= step.seen + |s.data|
    ensures step.CopyIn? ==> s.producer.copied < |s.producer.source|
    ensures step.PublishWrite? ==> s.producer.count <= |s.producer.source|
    ensures step.LoadWrite? ==> s.read <= step.seen
    ensures step.PublishRead? ==> s.read + s.consumer.wanted <= |s.pushed|
  {
  }

  /** The slot a push writes next is neither unread nor being copied out. */
  lemma CopyInIsFree<T>(s: Shared<T>, i: nat)
    requires Ok(s) && Enabled(s, CopyIn) && s.read <= i < s.write + s.producer.copied
    ensures i % |s.data| != (s.write + s.producer.copied) % |s.data|
  {
    SlotsDiffer(i, s.write + s.producer.copied, |s.data|);
  }

  lemma CopyInKeeps<T>(s: Shared<T>)
    requires Ok(s) && Enabled(s, CopyIn)
    ensures Ok(Next(s, CopyIn))
  {
    var p, t := s.producer, Next(s, CopyIn);
    forall i | s.read <= i < s.write ensures t.data[i % |t.data|] == t.pushed[i] {
      CopyInIsFree(s, i);
    }
    forall j | 0 <= j < p.copied + 1 ensures t.data[(s.write + j) % |t.data|] == p.source[j] {
      if j < p.copied { CopyInIsFree(s, s.write + j); }
    }
  }

  lemma PublishWriteKeeps<T>(s: Shared<T>)
    requires Ok(s) && Enabled(s, PublishWrite)
    ensures Ok(Next(s, PublishWrite))
  {
    var p, t := s.producer, Next(s, PublishWrite);
    forall i | t.read <= i < t.write ensures t.data[i % |t.data|] == t.pushed[i] {
      if i >= s.write { assert i == s.write + (i - s.write); }
    }
    assert t.pushed[..t.read] == s.pushed[..s.read];
    if s.consumer.Popping? {
      var c := s.consumer;
      assert t.pushed[t.read..t.read + |c.got|] == s.pushed[s.read..s.read + |c.got|];
    }
  }

  lemma CopyOutKeeps<T>(s: Shared<T>)
    requires Ok(s) && Enabled(s, CopyOut)
    ensures Ok(Next(s, CopyOut))
  {
    var n := |s.consumer.got|;
    assert s.data[(s.read + n) % |s.data|] == s.pushed[s.read + n];
    assert s.pushed[s.read..s.read + n + 1] == s.pushed[s.read..s.read + n] + [s.pushed[s.read + n]];
  }

  lemma PublishReadKeeps<T>(s: Shared<T>)
    requires Ok(s) && Enabled(s, PublishRead)
    ensures s.read + s.consumer.wanted <= |s.pushed| && Ok(Next(s, PublishRead))
  {
    var n := s.consumer.wanted;
    assert s.pushed[..s.read + n] == s.pushed[..s.read] + s.pushed[s.read..s.read + n];
  }

  lemma StepKeeps<T>(s: Shared<T>, step: Step<T>)
    requires Ok(s) && Enabled(s, step)
    ensures (StepDefined(s, step); Ok(Next(s, step)))
  {
    match step
    case LoadRead(_, _) =>
    case CopyIn => CopyInKeeps(s);
    case PublishWrite => PublishWriteKeeps(s);
    case LoadWrite(_, _, _) =>
    case CopyOut => CopyOutKeeps(s);
    case PublishRead => PublishReadKeeps(s);
  }

  function Start<T>(data: seq<T>): Shared<T> {
    Shared(data, 0, 0, Waiting, Resting, 0, 0, [], [])
  }

  ghost predicate Runs<T>(s: Shared<T>, steps: seq<Step<T>>)
    requires Ok(s)
    decreases |steps|
  {
    if steps == [] then true
    else
      Enabled(s, steps[0]) && (StepDefined(s, steps[0]); StepKeeps(s, steps[0]); Runs(Next(s, steps[0]), steps[1..]))
  }

  ghost function After<T>(s: Shared<T>, steps: seq<Step<T>>): Shared<T>
    requires Ok(s) && Runs(s, steps)
    decreases |steps|
  {
    if steps == [] then s
    else
      StepDefined(s, steps[0]);
      StepKeeps(s, steps[0]);
      After(Next(s, steps[0]), steps[1..])
  }

  lemma {:induction false} RunKeeps<T>(s: Shared<T>, steps: seq<Step<T>>)
    requires Ok(s) && Runs(s, steps)
    ensures Ok(After(s, steps))
    decreases |steps|
  {
    if steps != [] {
      StepDefined(s, steps[0]);
      StepKeeps(s, steps[0]);
      RunKeeps(Next(s, steps[0]), steps[1..]);
    }
  }

  /** First in, first out under every interleaving: what has been popped is a prefix of what has been pushed. */
  lemma Fifo<T>(data: seq<T>, steps: seq<Step<T>>)
    requires |data| > 0 && Ok(Start(data)) && Runs(Start(data), steps)
    ensures
      var s := After(Start(data), steps);
      && s.popped <= s.pushed && |s.popped| == s.read && |s.pushed| == s.write
      && s.read <= s.write <= s.read + |s.data|
  {
    RunKeeps(Start(data), steps);
  }

  lemma StartOk<T>(data: seq<T>)
    requires |data| > 0
    ensures Ok(Start(data))
  {
  }

  /** While both threads copy, they touch different slots. */
  lemma NeverTheSameSlot<T>(s: Shared<T>, i: nat, j: nat)
    requires Ok(s) && s.producer.Pushing? && s.consumer.Popping?
    requires i < s.producer.count && j < s.consumer.wanted
    ensures (s.write + i) % |s.data| != (s.read + j) % |s.data|
  {
    SlotsDiffer(s.read + j, s.write + i, |s.data|);
  }

  // ---------------------------------------------------------------- whole pushes and pops

  lemma AfterFirst<T>(s: Shared<T>, step: Step<T>, steps: seq<Step<T>>)
    requires Ok(s) && Runs(s, [step] + steps)
    ensures Enabled(s, step)
    ensures (StepDefined(s, step); Ok(Next(s, step)) && Runs(Next(s, step), steps) && After(s, [step] + steps) == After(Next(s, step), steps))
  {
    StepDefined(s, step);
    StepKeeps(s, step);
    assert ([step] + steps)[0] == step && ([step] + steps)[1..] == steps;
  }

  /** While a push goes on, whatever the other thread does, nothing more is published and its share stays fixed. */
  lemma {:induction false} PushGoesOn<T>(s: Shared<T>, steps: seq<Step<T>>)
    requires Ok(s) && Runs(s, steps) && s.producer.Pushing?
    requires forall i :: 0 <= i < |steps| ==> !steps[i].PublishWrite?
    ensures
      var t := After(s, steps);
      t.producer.Pushing? && t.producer.source == s.producer.source && t.producer.count == s.producer.count && t.pushed == s.pushed
    decreases |steps|
  {
    if steps != [] {
      StepDefined(s, steps[0]);
      StepKeeps(s, steps[0]);
      assert forall i :: 0 <= i < |steps| - 1 ==> steps[1..][i] == steps[i + 1];
      PushGoesOn(Next(s, steps[0]), steps[1..]);
    }
  }

  /** A push publishes, in order, as much as fits the room that it saw. */
  lemma PushIs<T>(s: Shared<T>, source: seq<T>, seen: nat, steps: seq<Step<T>>)
    requires Ok(s) && Runs(s, [LoadRead(source, seen)] + steps)
    requires forall i :: 0 <= i < |steps| ==> !steps[i].PublishWrite?
    ensures
      (RunKeeps(s, [LoadRead(source, seen)] + steps);
       var t := After(s, [LoadRead(source, seen)] + steps);
       var room := |s.data| - (|s.pushed| - seen);
       Enabled(t, PublishWrite) ==>
         (StepDefined(t, PublishWrite);
          Next(t, PublishWrite).pushed == s.pushed + source[..if |source| < room then |source| else room]))
  {
    AfterFirst(s, LoadRead(source, seen), steps);
    StepDefined(s, LoadRead(source, seen));
    PushGoesOn(Next(s, LoadRead(source, seen)), steps);
  }

  lemma {:induction false} PopGoesOn<T>(s: Shared<T>, steps: seq<Step<T>>)
    requires Ok(s) && Runs(s, steps) && s.consumer.Popping?
    requires forall i :: 0 <= i < |steps| ==> !steps[i].PublishRead?
    ensures
      var t := After(s, steps);
      && t.consumer.Popping? && t.consumer.wanted == s.consumer.wanted && t.consumer.keep == s.consumer.keep
      && t.popped == s.popped && s.pushed <= t.pushed
    decreases |steps|
  {
    if steps != [] {
      StepDefined(s, steps[0]);
      StepKeeps(s, steps[0]);
      assert forall i :: 0 <= i < |steps| - 1 ==> steps[1..][i] == steps[i + 1];
      PopGoesOn(Next(s, steps[0]), steps[1..]);
    }
  }

  /** A pop takes the oldest elements, as many as asked of those that it saw, and hands them over unless told not to. */
  lemma PopIs<T>(s: Shared<T>, keep: bool, asked: nat, seen: nat, steps: seq<Step<T>>)
    requires Ok(s) && Runs(s, [LoadWrite(keep, asked, seen)] + steps) && seen <= |s.pushed| && |s.popped| <= seen
    requires forall i :: 0 <= i < |steps| ==> !steps[i].PublishRead?
    ensures
      (RunKeeps(s, [LoadWrite(keep, asked, seen)] + steps);
       var t := After(s, [LoadWrite(keep, asked, seen)] + steps);
       var n := if asked < seen - |s.popped| then asked else seen - |s.popped|;
       Enabled(t, PublishRead) ==>
         (StepDefined(t, PublishRead);
          && Next(t, PublishRead).popped == s.pushed[..|s.popped| + n]
          && (keep ==> s.popped + t.consumer.got == s.pushed[..|s.popped| + n])))
  {
    var first := LoadWrite(keep, asked, seen);
    AfterFirst(s, first, steps);
    StepDefined(s, first);
    PopGoesOn(Next(s, first), steps);
    RunKeeps(s, [first] + steps);
    var t := After(s, [first] + steps);
    if Enabled(t, PublishRead) {
      PopEnds(t);
      assert t.pushed[..|s.popped| + t.consumer.wanted] == s.pushed[..|s.popped| + t.consumer.wanted];
    }
  }

  lemma PopEnds<T>(t: Shared<T>)
    requires Ok(t) && Enabled(t, PublishRead)
    ensures t.read + t.consumer.wanted <= |t.pushed|
    ensures Next(t, PublishRead).popped == t.pushed[..t.read + t.consumer.wanted]
    ensures t.consumer.keep ==> t.popped + t.consumer.got == t.pushed[..t.read + t.consumer.wanted]
  {
    var n := t.consumer.wanted;
    assert t.pushed[..t.read + n] == t.pushed[..t.read] + t.pushed[t.read..t.read + n];
  }
}
