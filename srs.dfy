/** The card scheduler: from a card, a recall rating and the current time,
    the card's next state, interval (in days) and due instant. */
module Srs {
  import opened Types

  const LearningIntervalMinutes: int := 10
  const InitialGoodIntervalDays: real := 1.0
  const InitialEasyIntervalDays: real := 4.0
  const HardMultiplier: real := 1.2
  const GoodMultiplier: real := 2.5
  const EasyMultiplier: real := 3.0
  /** Minimum interval once a card has graduated to review. */
  const MinInterval: real := 1.0

  const MsPerMinute: int := 60000
  const MsPerDay: int := 86400000

  datatype Rating = Again | Hard | Good | Easy

  function Max(a: real, b: real): real {
    if a >= b then a else b
  }

  /** Moving an instant forward by a whole number of minutes. */
  function AddMinutes(t: Time, minutes: int): (r: Time)
    ensures (r - t) % MsPerMinute == 0 && (r - t) / MsPerMinute == minutes
    ensures minutes > 0 ==> r > t
  {
    t + minutes * MsPerMinute
  }

  /** Moving a date forward by a number of days through its day of the month:
      the day of the month is an integer and the fractional part of the
      argument is dropped, so the due instant moves by whole days only. */
  function AddDays(t: Time, days: real): (r: Time)
    ensures (r - t) % MsPerDay == 0
    ensures ((r - t) as real) <= days * (MsPerDay as real) < ((r - t + MsPerDay) as real)
  {
    t + days.Floor * MsPerDay
  }

  /** Rounding to two decimal places, halves rounded upwards. */
  function Round2(x: real): (r: real)
    ensures (r * 100.0).Floor as real == r * 100.0
    ensures x - 0.005 < r <= x + 0.005
  {
    (x * 100.0 + 0.5).Floor as real / 100.0
  }

  /** A missing state is read as `new`. */
  function EffectiveState(card: Card): CardState {
    card.state.GetOr(New)
  }

  /** A missing interval (or 0) is read as 0. */
  function EffectiveInterval(card: Card): real {
    card.interval.GetOr(0.0)
  }

  function Multiplier(rating: Rating): real {
    match rating
    case Again => 0.0
    case Hard => HardMultiplier
    case Good => GoodMultiplier
    case Easy => EasyMultiplier
  }

  /** `updateCardSchedule`, with the clock reading passed in as `now`. The
      review branch computes the due date from the interval before it is
      rounded. */
  function UpdateCardSchedule(card: Card, rating: Rating, now: Time): (r: Card)
    ensures r.id == card.id && r.front == card.front && r.back == card.back
    ensures r.state == Some(Learning) || r.state == Some(Review)
    ensures r.interval.Some? && r.due.Some?
    ensures r.interval.value >= 0.0 && Round2(r.interval.value) == r.interval.value
    ensures r.state == Some(Learning) <==> rating == Again || (rating == Hard && EffectiveState(card) != Review)
    ensures r.state == Some(Learning) ==>
              r.interval == Some(0.0) && now < r.due.value <= now + 15 * MsPerMinute
    ensures r.state == Some(Review) ==>
              r.interval.value >= MinInterval && r.due.value >= now + MsPerDay && (r.due.value - now) % MsPerDay == 0
  {
    var interval := EffectiveInterval(card);
    var (state, next, due) :=
      match EffectiveState(card)
      case New | Learning =>
        (match rating
         case Again => (Learning, 0.0, AddMinutes(now, LearningIntervalMinutes))
         case Hard => (Learning, 0.0, AddMinutes(now, LearningIntervalMinutes * 3 / 2))
         case Good => (Review, InitialGoodIntervalDays, AddDays(now, InitialGoodIntervalDays))
         case Easy => (Review, InitialEasyIntervalDays, AddDays(now, InitialEasyIntervalDays)))
      case Review =>
        (match rating
         case Again => (Learning, 0.0, AddMinutes(now, LearningIntervalMinutes))
         case _ =>
           var grown := Max(MinInterval, interval * Multiplier(rating));
           (Review, grown, AddDays(now, grown)));
    Round2Idempotent(next);
    card.(state := Some(state), interval := Some(Round2(next)), due := Some(due))
  }

  /** Rounding a second time changes nothing. */
  lemma Round2Idempotent(x: real)
    ensures Round2(Round2(x)) == Round2(x)
  {
    var k := (x * 100.0 + 0.5).Floor;
    assert Round2(x) * 100.0 == k as real;
    assert (k as real + 0.5).Floor == k;
  }

  /** Rounding a non-negative interval never makes it negative. */
  lemma Round2NonNegative(x: real)
    requires x >= 0.0
    ensures Round2(x) >= 0.0
  {
    assert x * 100.0 + 0.5 >= 0.0;
  }

  /** `again` demotes a card in any state: learning, interval 0, due in 10 minutes. */
  lemma AgainRelearns(card: Card, now: Time)
    ensures var r := UpdateCardSchedule(card, Again, now);
            r.state == Some(Learning) && r.interval == Some(0.0) && r.due == Some(now + 10 * MsPerMinute)
  {
  }

  /** `hard` on a new or learning card keeps it learning, due in 15 minutes. */
  lemma HardWhileLearning(card: Card, now: Time)
    requires EffectiveState(card) != Review
    ensures var r := UpdateCardSchedule(card, Hard, now);
            r.state == Some(Learning) && r.interval == Some(0.0) && r.due == Some(now + 15 * MsPerMinute)
  {
  }

  /** `good` and `easy` graduate a new or learning card to review after 1 and 4
      days, whatever interval it carried before. */
  lemma Graduates(card: Card, now: Time)
    requires EffectiveState(card) != Review
    ensures var r := UpdateCardSchedule(card, Good, now);
            r.state == Some(Review) && r.interval == Some(1.0) && r.due == Some(now + MsPerDay)
    ensures var r := UpdateCardSchedule(card, Easy, now);
            r.state == Some(Review) && r.interval == Some(4.0) && r.due == Some(now + 4 * MsPerDay)
  {
    assert (100.5 as real).Floor == 100;
    assert (400.5 as real).Floor == 400;
  }

  /** A review card rated `hard`, `good` or `easy` stays in review; its interval
      is the old one times 1.2, 2.5 or 3.0, floored at one day and rounded to
      hundredths, and its due date is taken from the unrounded interval. */
  lemma ReviewGrows(card: Card, rating: Rating, now: Time)
    requires EffectiveState(card) == Review && rating != Again
    ensures var grown := Max(MinInterval, EffectiveInterval(card) * Multiplier(rating));
            var r := UpdateCardSchedule(card, rating, now);
            && r.state == Some(Review)
            && r.interval == Some(Round2(grown))
            && r.interval.value >= MinInterval
            && r.due == Some(AddDays(now, grown))
  {
  }

  /** A missing state behaves exactly as `new`. */
  lemma MissingStateIsNew(card: Card, rating: Rating, now: Time)
    ensures UpdateCardSchedule(card.(state := None), rating, now)
            == UpdateCardSchedule(card.(state := Some(New)), rating, now)
  {
  }

  /** A missing interval behaves exactly as 0. */
  lemma MissingIntervalIsZero(card: Card, rating: Rating, now: Time)
    ensures UpdateCardSchedule(card.(interval := None), rating, now)
            == UpdateCardSchedule(card.(interval := Some(0.0)), rating, now)
  {
  }

  /** The previous due date plays no part in the result. */
  lemma PriorDueIgnored(card: Card, rating: Rating, now: Time)
    ensures UpdateCardSchedule(card.(due := None), rating, now)
            == UpdateCardSchedule(card, rating, now)
  {
  }

  /** A review card with a ten-day interval rated `easy` gets 30 days. */
  lemma EasyTriplesTenDays(card: Card, now: Time)
    requires card.state == Some(Review) && card.interval == Some(10.0)
    ensures var r := UpdateCardSchedule(card, Easy, now);
            r.interval == Some(30.0) && r.due == Some(now + 30 * MsPerDay)
  {
    assert (3000.5 as real).Floor == 3000;
  }

  /** The due date can fall short of the stored interval: an interval of 1.1984
      days rated `good` grows to 2.996 days, is stored as 3 days, but the due
      date, taken from 2.996 whole days, is only 2 days away. */
  lemma DueMayTrailInterval(card: Card, now: Time)
    requires card.state == Some(Review) && card.interval == Some(1.1984)
    ensures var r := UpdateCardSchedule(card, Good, now);
            r.interval == Some(3.0) && r.due == Some(now + 2 * MsPerDay)
  {
    assert (300.1 as real).Floor == 300;
    assert (2.996 as real).Floor == 2;
  }
}
