/** Which thread is where, and how many threads are in each place. */
module Roster {
  import opened Wrappers

  type Tid = nat

  /** A thread with no entry is outside. */
  type Roster<R> = map<Tid, R>

  function One(b: bool): nat {
    if b then 1 else 0
  }

  predicate At<R(==)>(roster: Roster<R>, t: Tid, role: R) {
    t in roster && roster[t] == role
  }

  function Those<R(==)>(roster: Roster<R>, role: R): set<Tid> {
    set t | t in roster && roster[t] == role
  }

  function Count<R(==)>(roster: Roster<R>, role: R): nat {
    |Those(roster, role)|
  }

  /** notify_one: the woken thread is parked, and there is one if anybody is parked. */
  predicate NotifyOne<R(==)>(roster: Roster<R>, parked: R, woken: Option<Tid>) {
    if Count(roster, parked) == 0 then woken.None? else woken.Some? && At(roster, woken.value, parked)
  }

  function Wake<R>(roster: Roster<R>, woken: Option<Tid>, role: R): Roster<R> {
    if woken.Some? then roster[woken.value := role] else roster
  }

  lemma CountAfterMove<R>(roster: Roster<R>, t: Tid, to: R, role: R)
    ensures Count(roster[t := to], role) == Count(roster, role) - One(At(roster, t, role)) + One(to == role)
  {
    var before, after := Those(roster, role), Those(roster[t := to], role);
    var others := before - {t};
    assert after == if to == role then others + {t} else others;
    assert t in before ==> before == others + {t};
  }

  /** Every count after thread t has moved. */
  lemma CountsAfterMove<R(!new)>(roster: Roster<R>, t: Tid, to: R)
    ensures forall role ::
      Count(roster[t := to], role) == Count(roster, role) - One(At(roster, t, role)) + One(to == role)
  {
    forall role
      ensures Count(roster[t := to], role) == Count(roster, role) - One(At(roster, t, role)) + One(to == role)
    {
      CountAfterMove(roster, t, to, role);
    }
  }

  lemma CountPositive<R>(roster: Roster<R>, role: R)
    ensures Count(roster, role) > 0 <==> exists t :: At(roster, t, role)
  {
    var those := Those(roster, role);
    if t :| At(roster, t, role) {
      assert t in those;
    }
    if those != {} {
      var t :| t in those;
      assert At(roster, t, role);
    }
  }

  lemma SomeoneToNotify<R>(roster: Roster<R>, parked: R) returns (woken: Option<Tid>)
    ensures NotifyOne(roster, parked, woken)
  {
    CountPositive(roster, parked);
    if t :| At(roster, t, parked) {
      woken := Some(t);
    } else {
      woken := None;
    }
  }
}
