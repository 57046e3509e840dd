/** Cursors for the search, sealed so that only this codec can make one. Sealing is ideal here: what opens is exactly
    what was sealed, and no other text opens. The length of a token is computed as the codec computes it. */
module SealedCursor {
  import opened Wrappers
  import opened KeysetSearch
  import J = JiraCursorCodec

  const MAX_AGE: int := 900_000
  const CLOCK_SKEW: int := 60_000
  const MAX_SAFE: int := 9_007_199_254_740_991
  const MAX_TOKEN: nat := 8192
  const MAX_SPAN: int := 2_678_400_000

  datatype Context = Context(customerId: string, subject: string)

  datatype Payload = Payload(context: Context, filters: Filters, position: Position, issuedAt: int, expiresAt: int)

  datatype Token = Sealed(payload: Payload, salt: nat) | Text(text: string)

  datatype Failure = Refused

  // ---------- sizes ----------

  function Utf8(c: char): nat {
    var n := c as int;
    if n < 0x80 then 1 else if n < 0x800 then 2 else if n < 0x10000 then 3 else 4
  }

  function Utf8Length(s: string): nat {
    if s == "" then 0 else Utf8(s[0]) + Utf8Length(s[1..])
  }

  /** The bytes of a string inside a JSON text, without its quotes. */
  function JsonLength(s: string): nat {
    if s == "" then 0
    else (if |J.EscapeChar(s[0])| > 1 then |J.EscapeChar(s[0])| else Utf8(s[0])) + JsonLength(s[1..])
  }

  /** Identifiers have 36 characters, instants 24. */
  const ID_LENGTH: nat := 36
  const INSTANT_LENGTH: nat := 24

  const SKELETON: string :=
    "{\"context\":{\"customerId\":\"\",\"subject\":\"\"},\"filters\":{\"from\":\"\",\"until\":\"\"},"
    + "\"position\":{\"occurredAt\":\"\",\"id\":\"\"},\"issuedAt\":,\"expiresAt\":}"

  function ActionLength(a: Action): nat { if a.Granted? then |"access.granted"| else |"access.revoked"| }

  function FiltersLength(f: Filters): nat {
    (if f.actor.Some? then |"\"actor\":\"\","| + JsonLength(f.actor.value) else 0)
    + (if f.action.Some? then |"\"action\":\"\","| + ActionLength(f.action.value) else 0)
    + 2 * INSTANT_LENGTH
  }

  function DigitCount(n: nat): nat { if n < 10 then 1 else 1 + DigitCount(n / 10) }

  function PayloadLength(c: Context, f: Filters, issuedAt: nat, expiresAt: nat): nat {
    |SKELETON| + ID_LENGTH + JsonLength(c.subject) + FiltersLength(f) + INSTANT_LENGTH + ID_LENGTH
    + DigitCount(issuedAt) + DigitCount(expiresAt)
  }

  /** The salt, the tag and the ciphertext, which is as long as what it hides. */
  function FrameLength(payloadLength: nat): nat { 32 + 16 + payloadLength }

  /** Unpadded base64url, section 5 of RFC 4648: four characters for three bytes, two or three for what is left. */
  function Base64Length(bytes: nat): nat {
    4 * (bytes / 3) + (if bytes % 3 == 0 then 0 else bytes % 3 + 1)
  }

  function TokenLength(p: Payload): nat
    requires p.issuedAt >= 0 && p.expiresAt >= 0
  {
    3 + Base64Length(FrameLength(PayloadLength(p.context, p.filters, p.issuedAt, p.expiresAt)))
  }

  /** The estimate made before anything is read: the longest numbers, rounded up. */
  function WorstLength(c: Context, f: Filters): nat {
    3 + (4 * (48 + PayloadLength(c, f, MAX_SAFE, MAX_SAFE)) + 2) / 3
  }

  lemma CeilingIsBase64(bytes: nat)
    ensures Base64Length(bytes) == (4 * bytes + 2) / 3
  {
    var q, r := bytes / 3, bytes % 3;
    assert bytes == 3 * q + r;
    assert 4 * bytes + 2 == 3 * (4 * q) + 4 * r + 2;
  }

  lemma {:induction false} DigitsGrow(m: nat, n: nat)
    requires m <= n
    ensures DigitCount(m) <= DigitCount(n)
  {
    if m >= 10 {
      DigitsGrow(m / 10, n / 10);
    }
  }

  /** No token of a context and filters is longer than the estimate for them. */
  lemma EstimateHolds(p: Payload)
    requires 0 <= p.issuedAt <= MAX_SAFE && 0 <= p.expiresAt <= MAX_SAFE
    ensures TokenLength(p) <= WorstLength(p.context, p.filters)
  {
    DigitsGrow(p.issuedAt, MAX_SAFE);
    DigitsGrow(p.expiresAt, MAX_SAFE);
    CeilingIsBase64(FrameLength(PayloadLength(p.context, p.filters, p.issuedAt, p.expiresAt)));
    hide PayloadLength, Base64Length;
    var a, b := PayloadLength(p.context, p.filters, p.issuedAt, p.expiresAt), PayloadLength(p.context, p.filters, MAX_SAFE, MAX_SAFE);
    assert a <= b by { ShorterPayload(p); }
    assert (4 * (48 + a) + 2) / 3 <= (4 * (48 + b) + 2) / 3;
  }

  lemma ShorterPayload(p: Payload)
    requires 0 <= p.issuedAt <= MAX_SAFE && 0 <= p.expiresAt <= MAX_SAFE
    ensures PayloadLength(p.context, p.filters, p.issuedAt, p.expiresAt) <= PayloadLength(p.context, p.filters, MAX_SAFE, MAX_SAFE)
  {
    DigitsGrow(p.issuedAt, MAX_SAFE);
    DigitsGrow(p.expiresAt, MAX_SAFE);
    hide DigitCount, JsonLength;
  }

  // ---------- the codec ----------

  predicate ContextParses(c: Context) {
    |c.customerId| == ID_LENGTH && 1 <= |c.subject| <= 2048 && Utf8Length(c.subject) <= 2048
  }

  predicate FiltersParse(f: Filters) {
    && (f.actor.Some? ==> 1 <= |f.actor.value| <= 512)
    && (f.action.Some? ==> !f.action.value.Unrelated?)
    && 0 < f.until - f.from <= MAX_SPAN
  }

  predicate Safe(n: int) { 0 <= n <= MAX_SAFE }

  predicate InWindow(p: Position, f: Filters) { f.from <= p.occurredAt < f.until }

  predicate PayloadValid(p: Payload, now: int) {
    && ContextParses(p.context) && FiltersParse(p.filters) && Safe(p.issuedAt) && Safe(p.expiresAt)
    && Safe(now) && p.issuedAt <= now + CLOCK_SKEW
    && p.expiresAt == p.issuedAt + MAX_AGE && p.expiresAt > now
    && InWindow(p.position, p.filters)
  }

  predicate CanIssue(c: Context, f: Filters) {
    ContextParses(c) && FiltersParse(f) && WorstLength(c, f) <= MAX_TOKEN
  }

  function Seal(p: Payload, now: int, salt: nat): Result<Token, Failure> {
    if !PayloadValid(p, now) || TokenLength(p) > MAX_TOKEN then Err(Refused) else Ok(Sealed(p, salt))
  }

  function Issue(c: Context, f: Filters, position: Position, now: int, salt: nat): Result<Token, Failure> {
    if !CanIssue(c, f) then Err(Refused) else Seal(Payload(c, f, position, now, now + MAX_AGE), now, salt)
  }

  function Open(token: Token, c: Context, f: Filters, now: int): Result<Payload, Failure> {
    if !ContextParses(c) || !FiltersParse(f) || token.Text? then Err(Refused)
    else
      var p := token.payload;
      if !PayloadValid(p, now) || TokenLength(p) > MAX_TOKEN || p.context != c || p.filters != f then Err(Refused) else Ok(p)
  }

  function Advance(token: Token, c: Context, f: Filters, position: Position, now: int, salt: nat): Result<Token, Failure> {
    var opening := Open(token, c, f, now);
    if opening.Err? || !Below(position, opening.value.position) || !CanIssue(c, f) then Err(Refused)
    else Seal(opening.value.(position := position), now, salt)
  }

  /** Once a cursor may be issued, no cursor of that context and those filters is ever refused for its length. */
  lemma NeverTooLong(p: Payload, now: int, salt: nat)
    requires CanIssue(p.context, p.filters)
    ensures Seal(p, now, salt).Ok? <==> PayloadValid(p, now)
  {
    if PayloadValid(p, now) {
      EstimateHolds(p);
    }
    hide WorstLength, TokenLength, ContextParses, FiltersParse;
  }

  /** A cursor is issued exactly if the context and filters allow it, the clock is sane and the position in the window. */
  lemma IssuesExactly(c: Context, f: Filters, position: Position, now: int, salt: nat)
    ensures Issue(c, f, position, now, salt).Ok? <==> CanIssue(c, f) && Safe(now) && Safe(now + MAX_AGE) && InWindow(position, f)
  {
    if CanIssue(c, f) {
      NeverTooLong(Payload(c, f, position, now, now + MAX_AGE), now, salt);
    }
    hide WorstLength, TokenLength, Seal;
  }

  // ---------- chains ----------

  datatype Turn = Turn(position: Position, now: int, salt: nat)

  /** The cursor left after issuing one and advancing it turn by turn. */
  function Chain(c: Context, f: Filters, first: Turn, turns: seq<Turn>): Result<Token, Failure> {
    if turns == [] then Issue(c, f, first.position, first.now, first.salt)
    else
      var n := |turns| - 1;
      var token :- Chain(c, f, first, turns[..n]);
      Advance(token, c, f, turns[n].position, turns[n].now, turns[n].salt)
  }

  /** Along a chain everything but the position stays what it was when the first cursor was issued. */
  lemma {:induction false} ChainKeeps(c: Context, f: Filters, first: Turn, turns: seq<Turn>)
    requires Chain(c, f, first, turns).Ok?
    ensures var t := Chain(c, f, first, turns).value;
      && t.Sealed? && CanIssue(c, f)
      && t.payload == Payload(c, f, (if turns == [] then first else turns[|turns| - 1]).position, first.now, first.now + MAX_AGE)
      && InWindow(t.payload.position, f)
    ensures forall n :: 0 <= n <= |turns| ==> Chain(c, f, first, turns[..n]).Ok?
  {
    hide CanIssue, TokenLength, ContextParses, FiltersParse;
    if turns != [] {
      var before := turns[..|turns| - 1];
      ChainKeeps(c, f, first, before);
      forall n | 0 <= n <= |turns|
        ensures Chain(c, f, first, turns[..n]).Ok?
      {
        if n == |turns| {
          assert turns[..n] == turns;
        } else {
          assert before[..n] == turns[..n];
        }
      }
    } else {
      assert forall n :: 0 <= n <= |turns| ==> turns[..n] == turns;
    }
  }

  function PositionAt(first: Turn, turns: seq<Turn>, i: nat): Position
    requires i <= |turns|
  {
    if i == 0 then first.position else turns[i - 1].position
  }

  /** Each position of a chain comes after all earlier ones in the listing. */
  lemma {:induction false} PositionsDescend(c: Context, f: Filters, first: Turn, turns: seq<Turn>, i: nat, j: nat)
    requires Chain(c, f, first, turns).Ok? && i < j <= |turns|
    ensures Below(PositionAt(first, turns, j), PositionAt(first, turns, i))
  {
    hide CanIssue, TokenLength, ContextParses, FiltersParse;
    var before := turns[..|turns| - 1];
    ChainKeeps(c, f, first, before);
    if j < |turns| {
      PositionsDescend(c, f, first, before, i, j);
    } else if i < |turns| - 1 {
      PositionsDescend(c, f, first, before, i, |turns| - 1);
    }
  }

  /** No cursor of a chain opens outside the quarter of an hour after the first was issued, give or take the skew. */
  lemma ExpiresOnTime(c: Context, f: Filters, first: Turn, turns: seq<Turn>, now: int)
    requires Chain(c, f, first, turns).Ok?
    ensures Open(Chain(c, f, first, turns).value, c, f, now).Ok? <==> (Safe(now) && first.now - CLOCK_SKEW <= now < first.now + MAX_AGE)
  {
    ChainKeeps(c, f, first, turns);
    ChainSealed(c, f, first, turns);
    hide CanIssue, TokenLength, ContextParses, FiltersParse, Chain;
  }

  lemma {:induction false} ChainSealed(c: Context, f: Filters, first: Turn, turns: seq<Turn>)
    requires Chain(c, f, first, turns).Ok?
    ensures var t := Chain(c, f, first, turns).value;
      t.Sealed? && ContextParses(t.payload.context) && FiltersParse(t.payload.filters)
      && Safe(t.payload.issuedAt) && Safe(t.payload.expiresAt)
      && TokenLength(t.payload) <= MAX_TOKEN && InWindow(t.payload.position, t.payload.filters)
  {
    hide CanIssue, TokenLength, ContextParses, FiltersParse;
    if turns != [] {
      ChainSealed(c, f, first, turns[..|turns| - 1]);
    }
  }

  lemma ChainStep(c: Context, f: Filters, first: Turn, turns: seq<Turn>, next: Turn)
    requires Chain(c, f, first, turns).Ok?
    ensures Chain(c, f, first, turns + [next])
         == Advance(Chain(c, f, first, turns).value, c, f, next.position, next.now, next.salt)
  {
    hide Advance;
    assert (turns + [next])[..|turns|] == turns;
  }

  /** A cursor that may be issued is advanced exactly while it opens, to a later position in the window. */
  lemma AdvanceExactly(t: Token, c: Context, f: Filters, position: Position, now: int, salt: nat)
    requires t.Sealed? && CanIssue(c, f) && InWindow(t.payload.position, f)
    ensures Advance(t, c, f, position, now, salt).Ok?
      <==> Open(t, c, f, now).Ok? && Below(position, t.payload.position) && InWindow(position, f)
  {
    hide CanIssue, TokenLength, ContextParses, FiltersParse, WorstLength, Seal, Below, InWindow;
    if Open(t, c, f, now).Ok? {
      NeverTooLong(t.payload.(position := position), now, salt);
    }
  }

  /** A chain can be continued exactly while it has not expired, with any later position in the window. */
  lemma AdvancesExactly(c: Context, f: Filters, first: Turn, turns: seq<Turn>, next: Turn)
    requires Chain(c, f, first, turns).Ok?
    ensures Chain(c, f, first, turns + [next]).Ok? <==>
              && Safe(next.now) && first.now - CLOCK_SKEW <= next.now < first.now + MAX_AGE
              && Below(next.position, PositionAt(first, turns, |turns|)) && InWindow(next.position, f)
  {
    hide Chain, CanIssue, TokenLength, ContextParses, FiltersParse, Open, Advance, Below, InWindow;
    ChainKeeps(c, f, first, turns);
    ExpiresOnTime(c, f, first, turns, next.now);
    ChainStep(c, f, first, turns, next);
    AdvanceExactly(Chain(c, f, first, turns).value, c, f, next.position, next.now, next.salt);
  }
}
