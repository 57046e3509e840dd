/** How long a report read at some instant may still be shown, judged by two clocks at once. */
module UnrankedFreshness {
  import opened Wrappers

  /** What a clock shows: milliseconds, or something that is not a finite number. */
  datatype Reading = Finite(ms: real) | NotFinite

  /** An instant as a number of milliseconds; None for text that is not an instant in canonical form. */
  type Instant = Option<real>

  datatype Expiry = Never | At(ms: real) | NotANumber

  const MAX_SUPPORTS: nat := 1000

  function Earlier(e: Expiry, v: Instant): Expiry {
    if v.None? || e.NotANumber? then NotANumber
    else if e.Never? || v.value < e.ms then At(v.value) else e
  }

  /** The earliest of a list of instants. */
  ghost predicate IsEarliest(validUntil: seq<Instant>, e: Expiry) {
    match e
    case Never => validUntil == []
    case NotANumber => None in validUntil
    case At(ms) => Some(ms) in validUntil && forall v :: v in validUntil ==> v.Some? && ms <= v.value
  }

  /** Whether some instant's validity can be measured at all: every input is an instant, there is at least one, at
      most a thousand, and all of them are after the instant of the report. */
  ghost predicate Measurable(asOf: Instant, validUntil: seq<Instant>) {
    && 1 <= |validUntil| <= MAX_SUPPORTS
    && asOf.Some? && forall v :: v in validUntil ==> v.Some? && asOf.value < v.value
  }

  class FreshnessClock {
    const wallStart: Reading
    const monotonicStart: Reading
    var lastWall: Reading
    var lastMonotonic: Reading
    var invalid: bool
    var bound: bool
    var ttl: real

    /** What the clock was bound to, and every answer it has given. */
    ghost var asOf: Instant
    ghost var validUntil: seq<Instant>
    ghost var answers: seq<real>

    function Left(wall: real, monotonic: real): real
      requires wallStart.Finite? && monotonicStart.Finite?
      reads this`ttl
    {
      var w, m := ttl - (wall - wallStart.ms), ttl - (monotonic - monotonicStart.ms);
      if w <= m then w else m
    }

    ghost predicate Sound()
      reads this
    {
      && (!invalid ==> wallStart.Finite? && monotonicStart.Finite? && lastWall.Finite? && lastMonotonic.Finite?)
      && (!invalid && bound ==>
            && Measurable(asOf, validUntil)
            && (forall v :: v in validUntil ==> asOf.value + ttl <= v.value)
            && (answers != [] ==> answers[|answers| - 1] == Left(lastWall.ms, lastMonotonic.ms)))
      && (!bound ==> answers == [])
      && (forall i, j :: 0 <= i < j < |answers| ==> answers[j] <= answers[i])
      && (forall i :: 0 <= i < |answers| ==> answers[i] >= 0.0 && (answers[i] == 0.0 ==> invalid))
    }

    constructor (wall: Reading, monotonic: Reading)
      ensures Sound() && !bound && wallStart == wall && monotonicStart == monotonic
      ensures invalid <==> wall.NotFinite? || monotonic.NotFinite?
      ensures lastWall == wall && lastMonotonic == monotonic
    {
      wallStart, monotonicStart, lastWall, lastMonotonic := wall, monotonic, wall, monotonic;
      invalid := wall.NotFinite? || monotonic.NotFinite?;
      bound, ttl, asOf, validUntil, answers := false, 0.0, None, [], [];
    }

    /** Binds the clock to a report. The clock stays usable exactly when it was and the report's validity can be
        measured; its time to live is then the time from the report to the first expiry. */
    method Bind(asOf: Instant, validUntil: seq<Instant>)
      requires Sound() && !bound
      modifies this
      ensures Sound() && bound && this.asOf == asOf && this.validUntil == validUntil && answers == []
      ensures invalid <==> old(invalid) || !Measurable(asOf, validUntil)
      ensures !invalid ==> Some(asOf.value + ttl) in validUntil
      ensures lastWall == old(lastWall) && lastMonotonic == old(lastMonotonic)
    {
      bound := true;
      this.asOf, this.validUntil := asOf, validUntil;
      var expiry := Never;
      if |validUntil| > MAX_SUPPORTS {
        invalid := true;
      } else {
        var i := 0;
        while i < |validUntil|
          invariant i <= |validUntil| && IsEarliest(validUntil[..i], expiry)
          modifies {}
        {
          EarlierIsEarliest(validUntil[..i], expiry, validUntil[i]);
          assert validUntil[..i + 1] == validUntil[..i] + [validUntil[i]];
          expiry := Earlier(expiry, validUntil[i]);
          i := i + 1;
        }
        assert validUntil[..i] == validUntil;
      }
      if asOf.None? || !expiry.At? || expiry.ms - asOf.value <= 0.0 {
        invalid := true;
      } else {
        ttl := expiry.ms - asOf.value;
      }
    }

    /** How long the report may still be shown: zero for good once either clock has failed, gone back or passed an
        expiry, and never more than before. While it is positive the report's instant, moved on by what either
        clock has counted, is before every expiry. */
    method Remaining(wall: Reading, monotonic: Reading) returns (left: real)
      requires Sound() && bound
      modifies this`invalid, this`lastWall, this`lastMonotonic, this`answers
      ensures Sound() && answers == old(answers) + [left]
      ensures left == 0.0 <==> invalid
      ensures old(invalid) ==> invalid
      ensures left > 0.0 <==>
              && !old(invalid) && wall.Finite? && monotonic.Finite?
              && wall.ms >= old(lastWall).ms && monotonic.ms >= old(lastMonotonic).ms
              && Left(wall.ms, monotonic.ms) > 0.0
      ensures left > 0.0 ==> left == Left(wall.ms, monotonic.ms) && InTime(wall, monotonic)
      ensures old(answers) != [] ==> left <= old(answers)[|old(answers)| - 1]
    {
      if invalid {
        Answer(0.0);
        return 0.0;
      }
      if wall.NotFinite? || monotonic.NotFinite? || wall.ms < lastWall.ms || monotonic.ms < lastMonotonic.ms {
        invalid := true;
        Answer(0.0);
        return 0.0;
      }
      lastWall, lastMonotonic := wall, monotonic;
      left := Left(wall.ms, monotonic.ms);
      if left <= 0.0 {
        invalid := true;
        left := 0.0;
      }
      Answer(left);
    }

    ghost method Answer(left: real)
      requires forall i :: 0 <= i < |answers| ==> left <= answers[i]
      modifies this`answers
      ensures answers == old(answers) + [left]
    {
      answers := answers + [left];
    }

    /** By either clock the report's instant is still before every expiry. */
    ghost predicate InTime(wall: Reading, monotonic: Reading)
      reads this
    {
      && wall.Finite? && monotonic.Finite? && wallStart.Finite? && monotonicStart.Finite? && asOf.Some?
      && forall v :: v in validUntil ==>
           && v.Some?
           && asOf.value + (wall.ms - wallStart.ms) < v.value
           && asOf.value + (monotonic.ms - monotonicStart.ms) < v.value
    }
  }

  /** While time is left no expiry has truly passed, if the report is not older than the clock and either clock has
      counted at least the time that has passed since then. */
  lemma NotPastExpiry(c: FreshnessClock, wall: Reading, monotonic: Reading, start: real, now: real)
    requires c.InTime(wall, monotonic) && start <= c.asOf.value
    requires now - start <= wall.ms - c.wallStart.ms || now - start <= monotonic.ms - c.monotonicStart.ms
    ensures forall v :: v in c.validUntil ==> now < v.value
  {
  }

  lemma EarlierIsEarliest(validUntil: seq<Instant>, e: Expiry, v: Instant)
    requires IsEarliest(validUntil, e)
    ensures IsEarliest(validUntil + [v], Earlier(e, v))
  {
    var all := validUntil + [v];
    assert all[|validUntil|] == v;
    assert forall u :: u in all <==> u in validUntil || u == v;
  }
}
