/** The server's message queue: a singly linked list drained in order of time (source/server_misc.c,
    source/server.c). */
module Queue {
  import opened Seqs
  import opened Wire

  // ---------- the order ----------

  /** The first of the earliest messages. */
  function FirstMin(ms: seq<Message>): (k: nat)
    requires ms != []
    ensures k < |ms|
    ensures forall i :: 0 <= i < |ms| ==> ms[k].time <= ms[i].time
    ensures forall i :: 0 <= i < k ==> ms[k].time < ms[i].time
  {
    if |ms| == 1 then 0
    else
      var k := FirstMin(Init(ms));
      assert forall i :: 0 <= i < |ms| - 1 ==> ms[i] == Init(ms)[i];
      if Last(ms).time < ms[k].time then |ms| - 1 else k
  }

  function Without<T>(s: seq<T>, k: nat): seq<T>
    requires k < |s|
  {
    s[..k] + s[k + 1..]
  }

  /** The order in which the drain loop executes the messages. */
  function Drained(ms: seq<Message>): (out: seq<Message>)
    ensures |out| == |ms|
    decreases |ms|
  {
    if ms == [] then [] else [ms[FirstMin(ms)]] + Drained(Without(ms, FirstMin(ms)))
  }

  ghost predicate SortedByTime(ms: seq<Message>) {
    forall i, j :: 0 <= i < j < |ms| ==> ms[i].time <= ms[j].time
  }

  /** The messages of one time, in order. */
  function OfTime(ms: seq<Message>, t: int): seq<Message> {
    if ms == [] then [] else (if ms[0].time == t then [ms[0]] else []) + OfTime(ms[1..], t)
  }

  lemma {:induction false} OfTimeConcat(a: seq<Message>, b: seq<Message>, t: int)
    ensures OfTime(a + b, t) == OfTime(a, t) + OfTime(b, t)
  {
    if a == [] {
      assert a + b == b;
    } else {
      assert (a + b)[1..] == a[1..] + b;
      OfTimeConcat(a[1..], b, t);
    }
  }

  lemma {:induction false} OfTimeNone(ms: seq<Message>, t: int)
    requires forall i :: 0 <= i < |ms| ==> ms[i].time != t
    ensures OfTime(ms, t) == []
  {
    if ms != [] {
      OfTimeNone(ms[1..], t);
    }
  }

  lemma {:induction false} DrainedFrom(ms: seq<Message>, m: Message)
    requires m in Drained(ms)
    ensures m in ms
    decreases |ms|
  {
    var k := FirstMin(ms);
    if m != ms[k] {
      DrainedFrom(Without(ms, k), m);
    }
  }

  /** Draining is the stable sort by time: sorted, and the messages of each time in order of arrival. */
  lemma DrainedStable(ms: seq<Message>)
    ensures SortedByTime(Drained(ms))
    ensures forall t :: OfTime(Drained(ms), t) == OfTime(ms, t)
  {
    DrainedSorted(ms);
    forall t
      ensures OfTime(Drained(ms), t) == OfTime(ms, t)
    {
      DrainedOfTime(ms, t);
    }
  }

  lemma {:induction false} DrainedSorted(ms: seq<Message>)
    ensures SortedByTime(Drained(ms))
    decreases |ms|
  {
    if ms != [] {
      var k := FirstMin(ms);
      var rest := Without(ms, k);
      DrainedSorted(rest);
      forall i | 0 <= i < |Drained(rest)|
        ensures ms[k].time <= Drained(rest)[i].time
      {
        DrainedFrom(rest, Drained(rest)[i]);
      }
    }
  }

  lemma {:induction false} DrainedOfTime(ms: seq<Message>, t: int)
    ensures OfTime(Drained(ms), t) == OfTime(ms, t)
    decreases |ms|
  {
    if ms != [] {
      hide OfTime;
      var k := FirstMin(ms);
      DrainedOfTime(Without(ms, k), t);
      OfTimeConcat([ms[k]], Drained(Without(ms, k)), t);
      OfTimeWithout(ms, k, t);
    }
  }

  lemma OfTimeWithout(ms: seq<Message>, k: nat, t: int)
    requires k < |ms| && forall i :: 0 <= i < k ==> ms[i].time != ms[k].time
    ensures OfTime([ms[k]], t) + OfTime(Without(ms, k), t) == OfTime(ms, t)
  {
    var a, b := ms[..k], ms[k + 1..];
    assert ms == a + ([ms[k]] + b);
    OfTimeConcat(a, [ms[k]] + b, t);
    OfTimeConcat([ms[k]], b, t);
    OfTimeConcat(a, b, t);
    if ms[k].time == t {
      OfTimeNone(a, t);
    }
  }

  /** There is only one such order. */
  lemma {:induction false} StableUnique(a: seq<Message>, b: seq<Message>)
    requires SortedByTime(a) && SortedByTime(b)
    requires forall t :: OfTime(a, t) == OfTime(b, t)
    ensures a == b
  {
    SameEmpty(a, b);
    if a != [] {
      SameHead(a, b);
      SameHead(b, a);
      assert OfTime(a, a[0].time)[0] == OfTime(b, a[0].time)[0];
      forall t
        ensures OfTime(a[1..], t) == OfTime(b[1..], t)
      {
        assert OfTime(a, t) == OfTime(b, t);
        assert a[0] == b[0];
        var h := if a[0].time == t then [a[0]] else [];
        assert (h + OfTime(a[1..], t))[|h|..] == (h + OfTime(b[1..], t))[|h|..];
      }
      StableUnique(a[1..], b[1..]);
    }
  }

  lemma SameEmpty(a: seq<Message>, b: seq<Message>)
    requires forall t :: OfTime(a, t) == OfTime(b, t)
    ensures a == [] <==> b == []
  {
    assert forall t :: OfTime([], t) == [];
    assert a != [] ==> OfTime(a, a[0].time) != [];
    assert b != [] ==> OfTime(b, b[0].time) != [];
  }

  lemma SameHead(a: seq<Message>, b: seq<Message>)
    requires a != [] && b != [] && SortedByTime(b)
    requires forall t :: OfTime(a, t) == OfTime(b, t)
    ensures b[0].time <= a[0].time
  {
    assert OfTime(a, a[0].time) == OfTime(b, a[0].time);
    if a[0].time < b[0].time {
      OfTimeNone(b, a[0].time);
    }
  }

  // ---------- the linked list ----------

  class Msg {
    var time: int
    var text: string
    var user: string
    var perms: char
    var next: Msg?

    constructor (m: Message)
      ensures Value() == m && next == null
    {
      time, text, user, perms, next := m.time, m.raw, m.user, m.perm, null;
    }

    ghost function Value(): Message
      reads this
    {
      Message(time, text, user, perms)
    }
  }

  class MsgList {
    var messages: Msg?
    var size: int
    ghost var nodes: seq<Msg>
    ghost var repr: set<Msg>

    ghost predicate Valid()
      reads this, nodes`next
    {
      && size == |nodes|
      && messages == (if nodes == [] then null else nodes[0])
      && (forall i {:trigger nodes[i].next} :: 0 <= i < |nodes| ==>
            nodes[i].next == if i + 1 < |nodes| then nodes[i + 1] else null)
      && (forall i, j :: 0 <= i < j < |nodes| ==> nodes[i] != nodes[j])
      && (forall m :: m in nodes ==> m in repr)
    }

    ghost function Contents(): (ms: seq<Message>)
      reads this, nodes
      ensures |ms| == |nodes|
    {
      seq(|nodes|, i requires 0 <= i < |nodes| reads this, nodes => nodes[i].Value())
    }

    constructor ()
      ensures Valid() && nodes == [] && repr == {} && Contents() == []
    {
      messages, size, nodes, repr := null, 0, [], {};
    }

    method AddMsg(m: Msg)
      requires Valid() && m !in nodes && m.next == null
      modifies this, repr
      ensures Valid() && nodes == old(nodes) + [m] && repr == old(repr) + {m}
      ensures Contents() == old(Contents()) + [old(m.Value())]
    {
      if messages == null {
        messages := m;
      } else {
        var curr := messages;
        ghost var k := 0;
        while curr.next != null
          invariant k < |nodes| && curr == nodes[k]
          decreases |nodes| - k
        {
          curr := curr.next;
          k := k + 1;
        }
        curr.next := m;
      }
      nodes := nodes + [m];
      repr := repr + {m};
      size := size + 1;
    }

    /** The earliest message, the first of them if there are several, and the one before it in the list. */
    method Earliest() returns (min: Msg, minPrev: Msg?, ghost k: nat)
      requires Valid() && size != 0
      ensures k == FirstMin(Contents()) && k < |nodes| && min == nodes[k] && min in repr
      ensures minPrev == if k == 0 then null else nodes[k - 1]
    {
      var curr := messages;
      min := messages;
      minPrev := null;
      var prev: Msg? := null;
      k := 0;
      ghost var i := 0;
      while curr != null
        invariant 0 <= i <= |nodes| && curr == (if i < |nodes| then nodes[i] else null)
        invariant prev == if i == 0 then null else nodes[i - 1]
        invariant k < |nodes| && min == nodes[k]
        invariant minPrev == if k == 0 then null else nodes[k - 1]
        invariant if i == 0 then k == 0 else k == FirstMin(Contents()[..i])
        decreases |nodes| - i
      {
        assert Init(Contents()[..i + 1]) == Contents()[..i];
        if curr.time < min.time {
          min := curr;
          minPrev := prev;
          k := i;
        }
        prev := curr;
        curr := curr.next;
        i := i + 1;
      }
      assert Contents()[..i] == Contents();
    }

    method RemoveMsg(m: Msg, prev: Msg?, ghost k: nat)
      requires Valid() && k < |nodes| && m == nodes[k]
      requires prev == if k == 0 then null else nodes[k - 1]
      modifies this, repr
      ensures Valid() && nodes == Without(old(nodes), k) && repr == old(repr)
      ensures Contents() == Without(old(Contents()), k)
    {
      if prev == null {
        messages := m.next;
      } else {
        prev.next := m.next;
      }
      nodes := Without(nodes, k);
      size := size - 1;
    }
  }
}
