/** A limiter that counts recent events before it admits a new one. */
module SlidingWindow {
  /** The events of the closed window of this width that starts at `t`. */
  function Window(times: map<nat, int>, t: int, width: nat): set<nat> {
    set id | id in times && t <= times[id] <= t + width
  }

  function Since(times: map<nat, int>, lo: int): set<nat> {
    set id | id in times && times[id] >= lo
  }

  /** No closed window of this width holds more than `limit` events. */
  ghost predicate Bounded(times: map<nat, int>, width: nat, limit: nat) {
    forall t :: |Window(times, t, width)| <= limit
  }

  lemma SubsetSize<T>(a: set<T>, b: set<T>)
    requires a <= b
    ensures |a| <= |b|
  {
    assert b == a + (b - a);
  }

  /** Admitting an event when fewer than `limit` are as recent as one window before it keeps every window bounded. */
  lemma AdmitKeepsBounded(times: map<nat, int>, width: nat, limit: nat, since: int, id: nat, at: int)
    requires Bounded(times, width, limit) && id !in times
    requires |Since(times, since)| < limit && since + width <= at
    ensures Bounded(times[id := at], width, limit)
  {
    var after := times[id := at];
    forall t
      ensures |Window(after, t, width)| <= limit
    {
      assert |Window(times, t, width)| <= limit;
      if t <= at <= t + width {
        assert Window(after, t, width) == Window(times, t, width) + {id};
        SubsetSize(Window(times, t, width), Since(times, since));
      } else {
        assert Window(after, t, width) == Window(times, t, width);
      }
    }
  }

  /** Forgetting events keeps every window bounded. */
  lemma FewerKeepsBounded(times: map<nat, int>, fewer: map<nat, int>, width: nat, limit: nat)
    requires Bounded(times, width, limit)
    requires forall id :: id in fewer ==> id in times && fewer[id] == times[id]
    ensures Bounded(fewer, width, limit)
  {
    forall t
      ensures |Window(fewer, t, width)| <= limit
    {
      SubsetSize(Window(fewer, t, width), Window(times, t, width));
      assert |Window(times, t, width)| <= limit;
    }
  }
}
