// The DNS forwarder as the firmware has it (main/dns_forward.c): one static table
// of slots and one receive buffer, both changed in place.
module DnsForwarder {
  import opened ByteSeqs
  import opened Options
  import opened DnsMessage
  import opened DnsTable

  class Forwarder {
    const slots: array<Slot>
    const buf: array<byte>

    ghost predicate Valid() {
      slots.Length == SLOTS && buf.Length == MESSAGE_MAX
    }

    ghost function View(): Table
      requires Valid()
      reads slots
    {
      slots[..]
    }

    constructor ()
      ensures Valid() && fresh(slots) && fresh(buf)
      ensures View() == Initial()
    {
      slots := new Slot[SLOTS](_ => EMPTY);
      buf := new byte[MESSAGE_MAX](_ => 0);
    }

    method PendingFind(id: Id) returns (r: Option<nat>)
      requires Valid()
      ensures r == Find(View(), id)
    {
      var i := 0;
      while i < SLOTS
        invariant 0 <= i <= SLOTS
        invariant Find(View(), id) == FindFrom(View(), id, i)
      {
        if slots[i].inUse && slots[i].upstreamId == id {
          return Some(i);
        }
        i := i + 1;
      }
      return None;
    }

    // The do-while loop over esp_random(), fed with the draws it will make.
    method AllocUpstreamTxnId(draws: seq<Id>) returns (id: Id)
      requires Valid() && FirstUnused(View(), draws).Some?
      ensures FirstUnused(View(), draws) == Some(id)
    {
      var k := 0;
      while true
        invariant 0 <= k <= |draws|
        invariant FirstUnused(View(), draws) == FirstUnused(View(), draws[k..])
        decreases |draws| - k
      {
        id := draws[k];
        k := k + 1;
        var other := PendingFind(id);
        if other.None? {
          break;
        }
        assert draws[k - 1..][1..] == draws[k..];
      }
    }

    method PendingAlloc(now: int) returns (r: nat)
      requires Valid()
      ensures r == AllocIndex(View(), now)
    {
      var i := 0;
      while i < SLOTS
        invariant 0 <= i <= SLOTS
        invariant FirstFree(View(), 0) == FirstFree(View(), i)
      {
        if !slots[i].inUse {
          return i;
        }
        i := i + 1;
      }
      var oldestIdx, oldestTime := 0, now;
      i := 0;
      while i < SLOTS
        invariant 0 <= i <= SLOTS && oldestIdx < SLOTS
        invariant Oldest(View(), 0, 0, now) == Oldest(View(), i, oldestIdx, oldestTime)
      {
        if slots[i].sentAt < oldestTime {
          oldestTime := slots[i].sentAt;
          oldestIdx := i;
        }
        i := i + 1;
      }
      return oldestIdx;
    }

    method PendingExpireStale(now: int)
      requires Valid()
      modifies slots
      ensures View() == Expire(old(View()), now)
    {
      var i := 0;
      while i < SLOTS
        invariant 0 <= i <= SLOTS
        invariant forall k :: 0 <= k < i ==> slots[k] == ExpireSlot(old(slots[k]), now)
        invariant forall k :: i <= k < SLOTS ==> slots[k] == old(slots[k])
      {
        if slots[i].inUse && now - slots[i].sentAt > TTL_US {
          slots[i] := slots[i].(inUse := false);
        }
        i := i + 1;
      }
    }

    // recvmsg: the whole length is reported, the buffer gets what fits.
    method Receive(msg: Bytes) returns (len: nat, truncated: bool)
      requires Valid()
      modifies buf
      ensures len == |msg| && truncated == (|msg| > MESSAGE_MAX)
      ensures !truncated ==> buf[..len] == msg
    {
      len, truncated := |msg|, |msg| > MESSAGE_MAX;
      var n := if truncated then MESSAGE_MAX else len;
      var i := 0;
      while i < n
        invariant i <= n
        invariant buf[..i] == msg[..i]
      {
        buf[i] := msg[i];
        i := i + 1;
      }
    }

    // The listening side of dns_forward_task.
    method HandleQuery(q: Query) returns (sent: Option<Sent>)
      requires Valid()
      requires Acceptable(q) ==> DrawEnds(View(), q)
      modifies slots, buf
      ensures (View(), sent) == OnQuery(old(View()), q)
    {
      var len, truncated := Receive(q.msg);
      if truncated || len > buf.Length {
        return None;
      }
      if !HeaderValid(buf[..len], false) {
        return None;
      }
      var question := ExtractQuestion(buf, len);
      if question.None? || q.upstream.None? {
        return None;
      }
      sent := ForwardQuery(q, question.value);
    }

    // The two ID bytes of the datagram in buf.
    method PutId(id: Id, len: nat)
      requires Valid() && 2 <= len <= MESSAGE_MAX
      modifies buf
      ensures buf[..len] == SetId(old(buf[..len]), id)
    {
      buf[0], buf[1] := Hi(id), Lo(id);
    }

    // Fills a slot for the accepted query in buf and sends it upstream.
    method ForwardQuery(q: Query, question: Bytes) returns (sent: Option<Sent>)
      requires Valid() && Acceptable(q) && DrawEnds(View(), q)
      requires buf[..|q.msg|] == q.msg && Question(q.msg) == Some(question)
      modifies slots, buf
      ensures (View(), sent) == OnQuery(old(View()), q)
    {
      var i := PendingAlloc(q.allocNow);
      slots[i] := slots[i].(inUse := true);
      ghost var marked := View();
      assert marked == Marked(old(View()), i);
      slots[i] := slots[i].(clientId := Word(buf[0], buf[1]));
      UnusedDependsOnIds(marked, View(), q.draws);
      var id := AllocUpstreamTxnId(q.draws);
      assert id == DrawnId(old(View()), q);
      slots[i] := slots[i].(upstreamId := id, leaf := q.leaf, resolver := q.upstream.value,
                            question := question, sentAt := q.sentNow);
      PutId(id, |q.msg|);
      sent := Some(ToResolver(q.upstream.value, buf[..|q.msg|]));
      if !q.sendOk {
        slots[i] := slots[i].(inUse := false);
      }
      assert View() == old(View())[i := NewSlot(old(View()), q)];
    }

    // The upstream side of dns_forward_task.
    method HandleReply(msg: Bytes, from: Endpoint) returns (sent: Option<Sent>)
      requires Valid()
      modifies slots, buf
      ensures (View(), sent) == OnReply(old(View()), msg, from)
    {
      var len, truncated := Receive(msg);
      if truncated {
        return None;
      }
      var id := if HeaderValid(buf[..len], true) then Word(buf[0], buf[1]) else NEVER_ID;
      var slot := None;
      if id != NEVER_ID {
        slot := PendingFind(id);
      }
      if slot.None? {
        return None;
      }
      var i := slot.value;
      if from != slots[i].resolver {
        return None;
      }
      var question := ExtractQuestion(buf, len);
      if question != Some(slots[i].question) {
        return None;
      }
      PutId(slots[i].clientId, len);
      sent := Some(ToLeaf(slots[i].leaf, buf[..len]));
      slots[i] := slots[i].(inUse := false);
    }
  }
}
