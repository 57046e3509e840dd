/** What the slot does with its port, as a trace of events, and what follows from a trace the slot can leave.
    Identifiers are counter values here; Id gives the text that crosses the port. */
module XlsxLeaseTrace {
  import opened Wrappers

  newtype byte = x: int | 0 <= x < 256

  const COUNTER_MAX: nat := 0xffff_ffff_ffff_ffff

  // ---------- identifiers ----------

  function HexDigit(n: nat): (c: char)
    requires n < 16
    ensures HexValue(c) == n
  {
    if n < 10 then '0' + n as char else 'a' + (n - 10) as char
  }

  function HexValue(c: char): nat {
    if '0' <= c <= '9' then (c - '0') as nat
    else if 'a' <= c <= 'f' then (c - 'a') as nat + 10
    else 16
  }

  /** The shortest hexadecimal numeral. */
  function Hex(n: nat): string {
    if n < 16 then [HexDigit(n)] else Hex(n / 16) + [HexDigit(n % 16)]
  }

  function Zeros(k: nat): string {
    if k == 0 then "" else ['0'] + Zeros(k - 1)
  }

  function PadStart16(s: string): string {
    if |s| >= 16 then s else Zeros(16 - |s|) + s
  }

  function Id(prefix: string, n: nat): string { prefix + PadStart16(Hex(n)) }

  /** The number a numeral denotes; leading zeros do not matter. */
  function Value(s: string): nat {
    if s == "" then 0 else Value(s[..|s| - 1]) * 16 + HexValue(s[|s| - 1])
  }

  lemma {:induction false} HexDenotes(n: nat)
    ensures Value(Hex(n)) == n
  {
    var s := Hex(n);
    if n < 16 {
      assert s[..0] == "" && s[0] == HexDigit(n);
    } else {
      HexDenotes(n / 16);
      assert s[..|s| - 1] == Hex(n / 16);
    }
  }

  lemma {:induction false} ZerosDenote(k: nat, s: string)
    ensures Value(Zeros(k) + s) == Value(s) && |Zeros(k)| == k
    decreases |s|, k
  {
    var t := Zeros(k) + s;
    if s == "" {
      if k > 0 {
        ZerosDenote(k - 1, "");
        assert Zeros(k - 1) + "" == Zeros(k - 1);
        ZerosEnd(k);
        assert t == Zeros(k);
      }
    } else {
      ZerosDenote(k, s[..|s| - 1]);
      assert t[..|t| - 1] == Zeros(k) + s[..|s| - 1];
    }
  }

  lemma {:induction false} ZerosEnd(k: nat)
    requires k > 0
    ensures |Zeros(k)| == k && Zeros(k)[k - 1] == '0' && Zeros(k)[..k - 1] == Zeros(k - 1)
  {
    if k > 1 {
      ZerosEnd(k - 1);
      assert Zeros(k)[..k - 1] == ['0'] + Zeros(k - 1)[..k - 2];
    }
  }

  lemma PaddingKeepsValue(n: nat)
    ensures Value(PadStart16(Hex(n))) == n
  {
    HexDenotes(n);
    if |Hex(n)| < 16 { ZerosDenote(16 - |Hex(n)|, Hex(n)); }
  }

  /** Distinct counter values have distinct identifiers. */
  lemma IdsAreDistinct(prefix: string, m: nat, n: nat)
    requires Id(prefix, m) == Id(prefix, n)
    ensures m == n
  {
    var s, t := PadStart16(Hex(m)), PadStart16(Hex(n));
    PaddingKeepsValue(m);
    PaddingKeepsValue(n);
    hide PadStart16, Hex, Value;
    assert s == (prefix + s)[|prefix|..] && t == (prefix + t)[|prefix|..];
  }

  function Power16(k: nat): nat { if k == 0 then 1 else 16 * Power16(k - 1) }

  lemma {:induction false} HexLength(n: nat, k: nat)
    requires k > 0
    ensures |Hex(n)| <= k <==> n < Power16(k)
    decreases n
  {
    assert Power16(k) == 16 * Power16(k - 1);
    if n >= 16 && k > 1 {
      HexLength(n / 16, k - 1);
    } else if k == 1 {
      assert Power16(0) == 1;
      assert n >= 16 ==> |Hex(n / 16)| >= 1;
    } else {
      Power16Grows(k);
    }
  }

  lemma {:induction false} Power16Grows(k: nat)
    requires k > 0
    ensures Power16(k) >= 16
  {
    if k > 1 { Power16Grows(k - 1); }
  }

  /** Up to the last counter value, and no further, an identifier is its prefix and sixteen digits. */
  lemma IdLength(prefix: string, n: nat)
    ensures |Id(prefix, n)| == |prefix| + 16 <==> n <= COUNTER_MAX
  {
    HexLength(n, 16);
    assert Power16(16) == COUNTER_MAX + 1 by {
      assert Power16(4) == 0x1_0000;
      assert Power16(8) == 0x1_0000_0000;
      assert Power16(12) == 0x1_0000_0000_0000;
    }
    if |Hex(n)| < 16 { ZerosDenote(16 - |Hex(n)|, Hex(n)); }
  }

  // ---------- events ----------

  datatype Event =
    | Leased(job: nat)
    | ExchangeStarted(generation: nat, payload: seq<byte>)
    | ExchangeEnded
    | ResetStarted(previous: nat, next: nat)
    | ResetAcknowledged(id: nat)

  /** Where a lease stands: none, reading its input, exchanging, exchanged, waiting for a reset. */
  datatype Stage = Free | Working | Exchanging | Spent | Resetting(next: nat)

  datatype Trace = Trace(generation: nat, issued: nat, stage: Stage)

  const START := Trace(1, 1, Free)

  ghost function Step(t: Trace, e: Event): Option<Trace> {
    match e
    case Leased(job) =>
      if t.stage == Free && job > t.issued then Some(t.(issued := job, stage := Working)) else None
    case ExchangeStarted(g, _) =>
      if t.stage == Working && g == t.generation then Some(t.(stage := Exchanging)) else None
    case ExchangeEnded =>
      if t.stage == Exchanging then Some(t.(stage := Spent)) else None
    case ResetStarted(previous, next) =>
      if (t.stage == Working || t.stage == Spent) && previous == t.generation && next > t.issued then
        Some(t.(issued := next, stage := Resetting(next)))
      else None
    case ResetAcknowledged(id) =>
      if t.stage == Resetting(id) then Some(t.(generation := id, stage := Free)) else None
  }

  ghost function Replay(log: seq<Event>): Option<Trace> {
    if log == [] then Some(START)
    else
      var t := Replay(log[..|log| - 1]);
      if t.None? then None else Step(t.value, log[|log| - 1])
  }

  lemma ReplayMore(log: seq<Event>, e: Event)
    requires Replay(log).Some?
    ensures Replay(log + [e]) == Step(Replay(log).value, e)
  {
    assert (log + [e])[..|log|] == log;
  }

  lemma {:induction false} ReplayPrefix(log: seq<Event>, n: nat)
    requires Replay(log).Some? && n <= |log|
    ensures Replay(log[..n]).Some?
  {
    if n == |log| {
      assert log[..n] == log;
    } else {
      ReplayPrefix(log[..|log| - 1], n);
      assert log[..|log| - 1][..n] == log[..n];
    }
  }

  /** What identifies a generation or a job in an event, if the event brings one into being. */
  function Fresh(e: Event): Option<nat> {
    match e
    case Leased(job) => Some(job)
    case ResetStarted(_, next) => Some(next)
    case _ => None
  }

  lemma {:induction false} Ordered(log: seq<Event>)
    requires Replay(log).Some?
    ensures var t := Replay(log).value;
            t.generation <= t.issued && (t.stage.Resetting? ==> t.generation < t.stage.next <= t.issued)
  {
    if log != [] {
      Ordered(log[..|log| - 1]);
    }
  }

  /** No identifier brought into being is above the last one issued. */
  lemma {:induction false} FreshBelow(log: seq<Event>, i: nat)
    requires Replay(log).Some? && i < |log| && Fresh(log[i]).Some?
    ensures Fresh(log[i]).value <= Replay(log).value.issued
  {
    var n := |log| - 1;
    if i < n {
      assert log[..n][i] == log[i];
      FreshBelow(log[..n], i);
    }
  }

  /** An exchange's generation is not above the current one, and below it once another lease is possible. */
  lemma {:induction false} ExchangeBelow(log: seq<Event>, i: nat)
    requires Replay(log).Some? && i < |log| && log[i].ExchangeStarted?
    ensures var t := Replay(log).value;
            log[i].generation <= t.generation && (t.stage.Free? || t.stage.Working? ==> log[i].generation < t.generation)
  {
    var n := |log| - 1;
    if i < n {
      assert log[..n][i] == log[i];
      ExchangeBelow(log[..n], i);
      Ordered(log[..n]);
    }
  }

  /** Of two exchanges the first has ended before the second starts, and the second has the later generation. */
  lemma {:induction false} ExchangesAreDisjoint(log: seq<Event>, i: nat, j: nat)
    requires Replay(log).Some? && i < j < |log|
    requires log[i].ExchangeStarted? && log[j].ExchangeStarted?
    ensures log[i].generation < log[j].generation
    ensures exists k :: i < k < j && log[k] == ExchangeEnded
  {
    ReplayPrefix(log, j + 1);
    assert log[..j + 1][..j] == log[..j];
    assert log[..j][i] == log[i];
    ExchangeBelow(log[..j], i);
    Ends(log[..j], i);
    var k :| i < k < j && log[..j][k] == ExchangeEnded;
    assert log[k] == ExchangeEnded;
  }

  /** Once a trace is past an exchange, the exchange has ended. */
  lemma {:induction false} Ends(log: seq<Event>, i: nat)
    requires Replay(log).Some? && i < |log| && log[i].ExchangeStarted?
    ensures Replay(log).value.stage.Exchanging? || exists k :: i < k < |log| && log[k] == ExchangeEnded
  {
    var n := |log| - 1;
    if i < n && !Replay(log).value.stage.Exchanging? && log[n] != ExchangeEnded {
      assert log[..n][i] == log[i];
      Ends(log[..n], i);
      var k :| i < k < n && log[..n][k] == ExchangeEnded;
      assert log[k] == ExchangeEnded;
    }
  }

  /** A generation is the initial one, or it was acknowledged for the reset of the one before it. */
  ghost predicate Granted(log: seq<Event>, g: nat) {
    || g == START.generation
    || exists k :: 0 < k < |log| && log[k] == ResetAcknowledged(g) && log[k - 1].ResetStarted? && log[k - 1].next == g
  }

  lemma {:induction false} GenerationIsGranted(log: seq<Event>)
    requires Replay(log).Some?
    ensures Granted(log, Replay(log).value.generation)
  {
    if log != [] {
      var n := |log| - 1;
      var before := log[..n];
      GenerationIsGranted(before);
      if log[n].ResetAcknowledged? {
        ResettingFollowsRequest(before);
        assert log[n - 1] == before[n - 1];
      } else {
        var g := Replay(before).value.generation;
        if g != START.generation {
          var k :| 0 < k < n && before[k] == ResetAcknowledged(g) && before[k - 1].ResetStarted? && before[k - 1].next == g;
          assert log[k] == before[k] && log[k - 1] == before[k - 1];
        }
      }
    }
  }

  lemma ResettingFollowsRequest(log: seq<Event>)
    requires Replay(log).Some? && Replay(log).value.stage.Resetting?
    ensures log != [] && log[|log| - 1].ResetStarted? && log[|log| - 1].next == Replay(log).value.stage.next
  {
  }

  /** Every exchange runs under the initial generation or under the exact identifier that its predecessor's reset
      acknowledged just before. */
  lemma ExchangeGenerationIsGranted(log: seq<Event>, j: nat)
    requires Replay(log).Some? && j < |log| && log[j].ExchangeStarted?
    ensures Granted(log[..j], log[j].generation)
  {
    ReplayPrefix(log, j + 1);
    assert log[..j + 1][..j] == log[..j];
    GenerationIsGranted(log[..j]);
  }

  /** No text identifies two generations of exchanges. */
  lemma ExchangeTextsDiffer(prefix: string, log: seq<Event>, i: nat, j: nat)
    requires Replay(log).Some? && i < j < |log|
    requires log[i].ExchangeStarted? && log[j].ExchangeStarted?
    ensures Id(prefix, log[i].generation) != Id(prefix, log[j].generation)
  {
    ExchangesAreDisjoint(log, i, j);
    if Id(prefix, log[i].generation) == Id(prefix, log[j].generation) {
      IdsAreDistinct(prefix, log[i].generation, log[j].generation);
    }
  }

  /** No identifier is handed out twice, neither for a job nor for a generation. */
  lemma FreshTextsDiffer(prefix: string, log: seq<Event>, i: nat, j: nat)
    requires Replay(log).Some? && i < j < |log|
    requires Fresh(log[i]).Some? && Fresh(log[j]).Some?
    ensures Id(prefix, Fresh(log[i]).value) != Id(prefix, Fresh(log[j]).value)
  {
    ReplayPrefix(log, j + 1);
    assert log[..j + 1][..j] == log[..j];
    assert log[..j][i] == log[i];
    FreshBelow(log[..j], i);
    hide Id, Replay;
    if Id(prefix, Fresh(log[i]).value) == Id(prefix, Fresh(log[j]).value) {
      IdsAreDistinct(prefix, Fresh(log[i]).value, Fresh(log[j]).value);
    }
  }

  /** A later lease follows at once on the acknowledgement of a reset: nothing of the lease before it is pending. */
  lemma LeaseFollowsReset(log: seq<Event>, i: nat, j: nat)
    requires Replay(log).Some? && i < j < |log| && log[i].Leased? && log[j].Leased?
    ensures log[j - 1].ResetAcknowledged?
  {
    ReplayPrefix(log, j + 1);
    assert log[..j + 1][..j] == log[..j];
    assert log[..j][j - 1] == log[j - 1];
  }
}
