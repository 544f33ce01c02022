// The two ring buffers, main/log_buffer.c (bytes) and main/link_history.c (samples),
// against "the most recent items of the stream".
module Rings {
  import opened Counting

  const LOG_RING_SIZE: nat := 6144
  const LOG_LINE_MAX: nat := 256
  const LINK_HISTORY_SAMPLES: nat := 240

  newtype Sample = x: int | -0x8000 <= x < 0x8000 // int16_t

  // The last n items of s, or all of them.
  function Tail<T>(s: seq<T>, n: nat): (r: seq<T>)
    ensures |r| == Min(|s|, n)
  {
    s[|s| - Min(|s|, n)..]
  }

  // A position at most one lap past the start of a ring of n cells.
  function Wrap(i: nat, n: nat): (r: nat)
    requires i < 2 * n
    ensures r < n
  {
    if i < n then i else i - n
  }

  // n items from cell start on, around the end of the ring.
  function Around<T>(ring: seq<T>, start: nat, n: nat): (r: seq<T>)
    requires start < |ring| && n <= |ring|
    ensures |r| == n
  {
    seq(n, i requires 0 <= i < n => ring[Wrap(start + i, |ring|)])
  }

  predicate RingOk<T>(ring: seq<T>, head: nat, count: nat) {
    && head < |ring|
    && count <= |ring|
    && (count < |ring| ==> head == count)
  }

  function Oldest(size: nat, head: nat, count: nat): nat {
    if count == size then head else 0
  }

  // What the ring holds, oldest first.
  function Contents<T>(ring: seq<T>, head: nat, count: nat): (r: seq<T>)
    requires RingOk(ring, head, count)
    ensures |r| == count
  {
    Around(ring, Oldest(|ring|, head, count), count)
  }

  // ------------------------------------------------- laws of Tail

  lemma TailOfTail<T>(s: seq<T>, n: nat, m: nat)
    requires m <= n
    ensures Tail(Tail(s, n), m) == Tail(s, m)
  {
  }

  // Forgetting early is forgetting late: the ring loses nothing it would still show.
  lemma TailAbsorbs<T>(s: seq<T>, t: seq<T>, n: nat)
    ensures Tail(Tail(s, n) + t, n) == Tail(s + t, n)
  {
    var cut := |s| - Min(|s|, n);
    assert s == s[..cut] + Tail(s, n);
    assert s + t == s[..cut] + (Tail(s, n) + t);
  }

  // ------------------------------------------------- one append

  // The ring after data was copied in from cell head on.
  function Written<T>(ring: seq<T>, head: nat, data: seq<T>): (r: seq<T>)
    requires head < |ring| && |data| < |ring|
    ensures |r| == |ring|
  {
    seq(|ring|, i requires 0 <= i < |ring| =>
      if head <= i < head + |data| then data[i - head]
      else if i + |ring| < head + |data| then data[i + |ring| - head]
      else ring[i])
  }

  // The head's arithmetic and the two copies keep exactly the last |ring| items.
  lemma AppendKeepsTail<T>(ring: seq<T>, head: nat, count: nat, data: seq<T>)
    requires RingOk(ring, head, count) && |data| < |ring|
    ensures RingOk(Written(ring, head, data), Wrap(head + |data|, |ring|), Min(count + |data|, |ring|))
    ensures Contents(Written(ring, head, data), Wrap(head + |data|, |ring|), Min(count + |data|, |ring|))
      == Tail(Contents(ring, head, count) + data, |ring|)
  {
    var after := Contents(Written(ring, head, data), Wrap(head + |data|, |ring|), Min(count + |data|, |ring|));
    forall i | 0 <= i < |after|
      ensures after[i] == Tail(Contents(ring, head, count) + data, |ring|)[i]
    {
      ItemAfterAppend(ring, head, count, data, i);
    }
  }

  lemma ItemAfterAppend<T>(ring: seq<T>, head: nat, count: nat, data: seq<T>, i: nat)
    requires RingOk(ring, head, count) && |data| < |ring| && i < Min(count + |data|, |ring|)
    requires RingOk(Written(ring, head, data), Wrap(head + |data|, |ring|), Min(count + |data|, |ring|))
    ensures Contents(Written(ring, head, data), Wrap(head + |data|, |ring|), Min(count + |data|, |ring|))[i]
      == Tail(Contents(ring, head, count) + data, |ring|)[i]
  {
    var from, cell := CellAfterAppend(|ring|, head, count, |data|, i);
    var held := Contents(ring, head, count);
    assert Tail(held + data, |ring|)[i] == (held + data)[from];
  }

  // Item i of the ring after the append is item `from` of the stream it showed
  // before, extended by the data; it lies in cell `cell`.
  lemma CellAfterAppend(size: nat, head: nat, count: nat, added: nat, i: nat) returns (from: nat, cell: nat)
    requires head < size && count <= size && (count < size ==> head == count)
    requires added < size && i < Min(count + added, size)
    ensures from == count + added - Min(count + added, size) + i < count + added
    ensures cell == Wrap(Oldest(size, Wrap(head + added, size), Min(count + added, size)) + i, size)
    ensures from < count ==> cell == Wrap(Oldest(size, head, count) + from, size)
    ensures from < count ==> !(head <= cell < head + added) && head + added <= cell + size
    ensures from >= count ==> if head <= cell < head + added then from - count == cell - head
                              else cell + size < head + added && from - count == cell + size - head
  {
    from := count + added - Min(count + added, size) + i;
    cell := Wrap(Oldest(size, Wrap(head + added, size), Min(count + added, size)) + i, size);
  }

  // A ring of n cells shows the tail of a stream; one more append keeps it so.
  lemma AppendKeepsRing<T>(ring: seq<T>, head: nat, count: nat, stream: seq<T>, data: seq<T>)
    requires RingOk(ring, head, count) && |data| < |ring|
    requires Contents(ring, head, count) == Tail(stream, |ring|)
    ensures RingOk(Written(ring, head, data), Wrap(head + |data|, |ring|), Min(count + |data|, |ring|))
    ensures Contents(Written(ring, head, data), Wrap(head + |data|, |ring|), Min(count + |data|, |ring|))
      == Tail(stream + data, |ring|)
  {
    AppendKeepsTail(ring, head, count, data);
    TailAbsorbs(stream, data, |ring|);
  }

  // Where the readers start: behind the items that have to be dropped.
  lemma ReadsTail<T>(ring: seq<T>, head: nat, count: nat, n: nat)
    requires RingOk(ring, head, count) && n <= count
    requires Oldest(|ring|, head, count) + (count - n) < 2 * |ring|
    ensures Around(ring, Wrap(Oldest(|ring|, head, count) + (count - n), |ring|), n)
      == Tail(Contents(ring, head, count), n)
  {
    var start := Wrap(Oldest(|ring|, head, count) + (count - n), |ring|);
    var held := Contents(ring, head, count);
    forall i | 0 <= i < n
      ensures Around(ring, start, n)[i] == Tail(held, n)[i]
    {
      var from := count - n + i;
      assert Tail(held, n)[i] == held[from];
      assert Wrap(start + i, |ring|) == Wrap(Oldest(|ring|, head, count) + from, |ring|);
    }
  }

  // What a reader copies out of a ring that shows the tail of a stream.
  lemma ReadsRing<T>(ring: seq<T>, head: nat, count: nat, stream: seq<T>, n: nat)
    requires RingOk(ring, head, count) && n <= count
    requires Contents(ring, head, count) == Tail(stream, |ring|)
    ensures Around(ring, Wrap(Oldest(|ring|, head, count) + (count - n), |ring|), n) == Tail(stream, n)
  {
    ReadsTail(ring, head, count, n);
    TailOfTail(stream, |ring|, n);
  }

  // ------------------------------------------------- the cut

  // What ring_append keeps of its argument: all of it, or the last 6143 bytes.
  function Cut(data: seq<char>): seq<char> {
    if |data| >= LOG_RING_SIZE then Tail(data, LOG_RING_SIZE - 1) else data
  }

  // The bytes one would expect to see are those of the uncut stream. They are seen
  // exactly when the append is shorter than the ring, or the byte that the cut left
  // standing happens to be the one it dropped.
  lemma CutIsHarmless(seen: seq<char>, data: seq<char>)
    ensures Tail(seen + Cut(data), LOG_RING_SIZE) == Tail(seen + data, LOG_RING_SIZE)
      <==> |data| < LOG_RING_SIZE
           || (|seen| > 0 && seen[|seen| - 1] == data[|data| - LOG_RING_SIZE])
  {
    if |data| >= LOG_RING_SIZE {
      var kept := Tail(data, LOG_RING_SIZE - 1);
      var dropped := data[|data| - LOG_RING_SIZE];
      assert Tail(seen + data, LOG_RING_SIZE) == [dropped] + kept;
      if |seen| > 0 {
        assert Tail(seen + kept, LOG_RING_SIZE) == [seen[|seen| - 1]] + kept;
        assert ([dropped] + kept)[0] == dropped;
      }
    }
  }

  // ------------------------------------------------- the log ring

  class LogRing {
    const ring: array<char>
    var head: nat
    var count: nat
    ghost var stream: seq<char> // everything appended so far, as cut

    ghost predicate Valid()
      reads this, ring
    {
      && ring.Length == LOG_RING_SIZE
      && RingOk(ring[..], head, count)
      && Contents(ring[..], head, count) == Tail(stream, LOG_RING_SIZE)
    }

    constructor ()
      ensures Valid() && fresh(ring) && stream == []
    {
      ring := new char[LOG_RING_SIZE](_ => '\0');
      head, count, stream := 0, 0, [];
    }

    // The two copies at the heart of ring_append.
    method CopyIn(data: seq<char>)
      requires ring.Length == LOG_RING_SIZE && head < LOG_RING_SIZE && |data| < LOG_RING_SIZE
      modifies ring
      ensures ring[..] == Written(old(ring[..]), head, data)
    {
      var first := LOG_RING_SIZE - head;
      if first > |data| {
        first := |data|;
      }
      forall i | head <= i < head + first {
        ring[i] := data[i - head];
      }
      if |data| > first {
        forall i | 0 <= i < |data| - first {
          ring[i] := data[first + i];
        }
      }
    }

    method RingAppend(data: seq<char>)
      requires Valid()
      modifies this, ring
      ensures Valid()
      ensures stream == old(stream) + Cut(data)
    {
      if |data| >= LOG_RING_SIZE {
        AppendCut(data[|data| - (LOG_RING_SIZE - 1)..]);
      } else {
        AppendCut(data);
      }
    }

    method AppendCut(data: seq<char>)
      requires Valid() && |data| < LOG_RING_SIZE
      modifies this, ring
      ensures Valid()
      ensures stream == old(stream) + data
    {
      ghost var after := Written(ring[..], head, data);
      AppendKeepsRing(ring[..], head, count, stream, data);
      CopyIn(data);
      assert ring[..] == after;
      Advance(|data|);
      stream := stream + data;
    }

    // The arithmetic of the head and the count.
    method Advance(len: nat)
      requires head < LOG_RING_SIZE && len < LOG_RING_SIZE
      modifies this`head, this`count
      ensures head == Wrap(old(head) + len, LOG_RING_SIZE)
      ensures count == Min(old(count) + len, LOG_RING_SIZE)
    {
      head := (head + len) % LOG_RING_SIZE;
      count := if count + len > LOG_RING_SIZE then LOG_RING_SIZE else count + len;
    }

    // The ring's half of log_vprintf: the formatted line, unless the lock is busy.
    method LogVprintf(line: seq<char>, lockFree: bool)
      requires Valid()
      modifies this, ring
      ensures Valid()
      ensures stream == old(stream) + if lockFree then line[..Min(|line|, LOG_LINE_MAX - 1)] else []
    {
      if lockFree && |line| > 0 {
        var n := if |line| < LOG_LINE_MAX then |line| else LOG_LINE_MAX - 1;
        RingAppend(line[..n]);
      }
    }

    // The two copies at the heart of log_buffer_read.
    method CopyOut(out: array<char>, start: nat, n: nat)
      requires ring.Length == LOG_RING_SIZE && start < LOG_RING_SIZE && n <= LOG_RING_SIZE && n < out.Length
      requires out != ring
      modifies out
      ensures out[..n] == Around(ring[..], start, n)
      ensures forall i :: n <= i < out.Length ==> out[i] == old(out[i])
    {
      var first := LOG_RING_SIZE - start;
      if first > n {
        first := n;
      }
      forall i | 0 <= i < first {
        out[i] := ring[start + i];
      }
      if n > first {
        forall i | first <= i < n {
          out[i] := ring[i - first];
        }
      }
      assert forall i :: 0 <= i < n ==> out[i] == ring[Wrap(start + i, LOG_RING_SIZE)];
    }

    // Where log_buffer_read starts and how much it copies, given the caller's room:
    // the oldest bytes are dropped.
    method ReadRange(room: nat) returns (start: nat, available: nat)
      requires RingOk(ring[..], head, count) && ring.Length == LOG_RING_SIZE
      ensures available == Min(count, room)
      ensures start == Wrap(Oldest(LOG_RING_SIZE, head, count) + (count - available), LOG_RING_SIZE)
    {
      available := count;
      start := if count == LOG_RING_SIZE then head else 0;
      if available > room {
        var drop := available - room;
        start := (start + drop) % LOG_RING_SIZE;
        available := available - drop;
      }
    }

    // The most recent min(held, out_size - 1) bytes, in order, and a terminator.
    method Read(out: array?<char>, locked: bool) returns (n: nat)
      requires Valid() && out != ring
      modifies out
      ensures out == null || out.Length == 0 || !locked ==> n == 0
      ensures out != null && out.Length > 0 && locked ==> n == Min(Min(|stream|, LOG_RING_SIZE), out.Length - 1)
      ensures out != null && out.Length > 0 ==> n < out.Length && out[..n] == Tail(stream, n) && out[n] == '\0'
      ensures out != null ==> forall i :: n < i < out.Length ==> out[i] == old(out[i])
    {
      if out == null || out.Length == 0 {
        return 0;
      }
      out[0] := '\0';
      if !locked {
        return 0;
      }
      var start, available := ReadRange(out.Length - 1);
      ReadsRing(ring[..], head, count, stream, available);
      CopyOut(out, start, available);
      out[available] := '\0';
      n := available;
    }
  }

  // ------------------------------------------------- the sample ring

  class RssiRing {
    const ring: array<Sample>
    var head: nat
    var count: nat
    ghost var stream: seq<Sample>

    ghost predicate Valid()
      reads this, ring
    {
      && ring.Length == LINK_HISTORY_SAMPLES
      && RingOk(ring[..], head, count)
      && Contents(ring[..], head, count) == Tail(stream, LINK_HISTORY_SAMPLES)
    }

    constructor ()
      ensures Valid() && fresh(ring) && stream == []
    {
      ring := new Sample[LINK_HISTORY_SAMPLES](_ => 0);
      head, count, stream := 0, 0, [];
    }

    method SampleTimer(rssi: Sample)
      requires Valid()
      modifies this, ring
      ensures Valid() && stream == old(stream) + [rssi]
    {
      AppendKeepsRing(ring[..], head, count, stream, [rssi]);
      ghost var after := Written(ring[..], head, [rssi]);
      ring[head] := rssi;
      assert ring[..] == after;
      head := (head + 1) % LINK_HISTORY_SAMPLES;
      if count < LINK_HISTORY_SAMPLES {
        count := count + 1;
      }
      stream := stream + [rssi];
    }

    // The most recent min(held, capacity) samples, in order.
    method GetRssi(out: array?<Sample>) returns (n: nat)
      requires Valid() && out != ring
      modifies out
      ensures n == if out == null then 0 else Min(Min(|stream|, LINK_HISTORY_SAMPLES), out.Length)
      ensures out != null ==> out[..n] == Tail(stream, n)
      ensures out != null ==> forall i :: n <= i < out.Length ==> out[i] == old(out[i])
    {
      if out == null || out.Length == 0 {
        return 0;
      }
      var start, available := ReadRange(out.Length);
      ReadsRing(ring[..], head, count, stream, available);
      CopySamples(out, start, available);
      n := available;
    }

    method ReadRange(room: nat) returns (start: nat, available: nat)
      requires RingOk(ring[..], head, count) && ring.Length == LINK_HISTORY_SAMPLES
      ensures available == Min(count, room)
      ensures start == Wrap(Oldest(LINK_HISTORY_SAMPLES, head, count) + (count - available), LINK_HISTORY_SAMPLES)
    {
      available := if count > room then room else count;
      var oldest := if count < LINK_HISTORY_SAMPLES then 0 else head;
      start := (oldest + (count - available)) % LINK_HISTORY_SAMPLES;
    }

    method CopySamples(out: array<Sample>, start: nat, n: nat)
      requires ring.Length == LINK_HISTORY_SAMPLES && start < LINK_HISTORY_SAMPLES
      requires n <= LINK_HISTORY_SAMPLES && n <= out.Length && out != ring
      modifies out
      ensures out[..n] == Around(ring[..], start, n)
      ensures forall i :: n <= i < out.Length ==> out[i] == old(out[i])
    {
      for i := 0 to n
        invariant forall k :: 0 <= k < i ==> out[k] == ring[Wrap(start + k, LINK_HISTORY_SAMPLES)]
        invariant forall k :: i <= k < out.Length ==> out[k] == old(out[k])
        invariant ring[..] == old(ring[..])
      {
        out[i] := ring[(start + i) % LINK_HISTORY_SAMPLES];
      }
    }
  }
}
