/** Planned moments: iterating an evaluator, and enumerating the moments that are due. */
module Schedule {
  import opened Basics

  type Time = int

  const MAX_SCHEDULED_MOMENTS := 1000

  /** Next(after) is strictly later than after. Cron and interval evaluators both promise this. */
  ghost predicate StrictlyIncreasing(next: Time -> Time) {
    forall t :: next(t) > t
  }

  /** The interval evaluator: relative to the previous planned moment, not to when it was executed. */
  function IntervalNext(interval: int): Time -> Time {
    (after: Time) => after + interval
  }

  /** The k-th planned moment counted from first. */
  function Nth(next: Time -> Time, first: Time, k: nat): Time {
    if k == 0 then first else next(Nth(next, first, k - 1))
  }

  function DueAfter(next: Time -> Time, cursor: Time, until: Time, room: nat): seq<Time>
    decreases room
  {
    if room == 0 then []
    else
      var t := next(cursor);
      if t > until || t <= cursor then [] else [t] + DueAfter(next, t, until, room - 1)
  }

  function Due(next: Time -> Time, first: Time, until: Time, limit: nat): seq<Time>
    requires limit >= 1
  {
    if first > until then [] else [first] + DueAfter(next, first, until, limit - 1)
  }

  function EffectiveLimit(limit: int): (r: nat)
    ensures r >= 1
  {
    if limit <= 0 then MAX_SCHEDULED_MOMENTS else limit
  }

  /** Every due moment in [first, until], oldest first, up to the limit. */
  method DueMoments(next: Time -> Time, first: Time, until: Time, limit: int)
    returns (moments: seq<Time>, truncated: bool)
    ensures moments == Due(next, first, until, EffectiveLimit(limit))
    ensures truncated <==> |moments| == EffectiveLimit(limit)
  {
    if first > until {
      return [], false;
    }
    var cap := limit;
    if cap <= 0 {
      cap := MAX_SCHEDULED_MOMENTS;
    }
    moments := [first];
    var cursor := first;
    ghost var all := Due(next, first, until, cap);
    while |moments| < cap
      invariant 1 <= |moments| <= cap
      invariant moments + DueAfter(next, cursor, until, cap - |moments|) == all
      decreases cap - |moments|
    {
      var t := next(cursor);
      if t > until {
        return moments, false;
      }
      if t <= cursor {
        // an evaluator that does not advance: stop instead of looping
        return moments, false;
      }
      assert moments + DueAfter(next, cursor, until, cap - |moments|)
          == (moments + [t]) + DueAfter(next, t, until, cap - |moments| - 1);
      moments := moments + [t];
      cursor := t;
    }
    return moments, true;
  }

  lemma {:induction false} NthShift(next: Time -> Time, first: Time, k: nat)
    ensures Nth(next, next(first), k) == Nth(next, first, k + 1)
  {
    if k > 0 {
      NthShift(next, first, k - 1);
    }
  }

  lemma {:induction false} NthCompose(next: Time -> Time, first: Time, a: nat, b: nat)
    ensures Nth(next, Nth(next, first, a), b) == Nth(next, first, a + b)
  {
    if b > 0 {
      NthCompose(next, first, a, b - 1);
    }
  }

  lemma {:induction false} NthIncreases(next: Time -> Time, first: Time, a: nat, b: nat)
    requires StrictlyIncreasing(next) && a < b
    ensures Nth(next, first, a) < Nth(next, first, b)
  {
    if a + 1 < b {
      NthIncreases(next, first, a, b - 1);
    }
  }

  lemma {:induction false} DueAfterIsOrbit(next: Time -> Time, cursor: Time, until: Time, room: nat)
    requires StrictlyIncreasing(next)
    ensures var ms := DueAfter(next, cursor, until, room);
            && |ms| <= room
            && (forall k | 0 <= k < |ms| :: ms[k] == Nth(next, cursor, k + 1) && ms[k] <= until)
            && (|ms| < room ==> Nth(next, cursor, |ms| + 1) > until)
    decreases room
  {
    if room > 0 {
      var t := next(cursor);
      if t <= until {
        var rest := DueAfter(next, t, until, room - 1);
        DueAfterIsOrbit(next, t, until, room - 1);
        var ms := DueAfter(next, cursor, until, room);
        assert ms == [t] + rest;
        assert t == Nth(next, cursor, 1);
        forall k | 0 <= k < |ms|
          ensures ms[k] == Nth(next, cursor, k + 1) && ms[k] <= until
        {
          if k > 0 {
            NthShift(next, cursor, k);
          }
        }
        NthShift(next, cursor, |rest| + 1);
      } else {
        assert Nth(next, cursor, 1) == t;
      }
    }
  }

  /** The enumeration is exactly the planned moments up to until, unless it stops at the limit. */
  lemma DueIsOrbit(next: Time -> Time, first: Time, until: Time, limit: nat)
    requires StrictlyIncreasing(next) && limit >= 1
    ensures var ms := Due(next, first, until, limit);
            && |ms| <= limit
            && (forall k | 0 <= k < |ms| :: ms[k] == Nth(next, first, k) && ms[k] <= until)
            && (|ms| < limit ==> forall k: nat :: Nth(next, first, k) <= until <==> k < |ms|)
  {
    if first <= until {
      DueAfterIsOrbit(next, first, until, limit - 1);
    }
    var ms := Due(next, first, until, limit);
    if |ms| < limit {
      assert Nth(next, first, |ms|) > until;
      forall k: nat
        ensures Nth(next, first, k) <= until <==> k < |ms|
      {
        if k > |ms| {
          NthIncreases(next, first, |ms|, k);
        } else if k < |ms| {
          assert ms[k] == Nth(next, first, k);
        }
      }
    }
  }

  /**
   * The truncation flag also comes up when the limit is met exactly and nothing was left out, which its
   * documentation does not say: with exactly limit moments due, the next one already lies past until.
   */
  lemma TruncationFlagWithNothingLeftOut(interval: int, first: Time, limit: nat)
    requires interval > 0 && limit >= 1
    ensures var next := IntervalNext(interval);
            var until := Nth(next, first, limit - 1);
            |Due(next, first, until, limit)| == limit && Nth(next, first, limit) > until
  {
    var next := IntervalNext(interval);
    var until := Nth(next, first, limit - 1);
    TruncationFlagMeaning(next, first, until, limit);
    NthIncreases(next, first, limit - 1, limit);
  }

  /** The flag comes up exactly when at least limit moments are due. */
  lemma TruncationFlagMeaning(next: Time -> Time, first: Time, until: Time, limit: nat)
    requires StrictlyIncreasing(next) && limit >= 1
    ensures |Due(next, first, until, limit)| == limit <==> Nth(next, first, limit - 1) <= until
  {
    DueIsOrbit(next, first, until, limit);
    var ms := Due(next, first, until, limit);
    if |ms| == limit {
      assert ms[limit - 1] == Nth(next, first, limit - 1);
    }
  }
}
