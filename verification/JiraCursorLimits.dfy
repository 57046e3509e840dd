/** Ordinary listings: what their cursors carry never stops a walk. */
module JiraCursorLimits {
  import opened Wrappers
  import opened JiraKeys
  import opened JiraCursorCodec
  import opened JiraPaging
  import opened JiraServer
  import opened JiraWalk
  import opened JiraVisited
  import opened JiraTheorems

  /** Characters that are written as they are, one unit each. */
  predicate Plain(s: string) {
    forall i :: 0 <= i < |s| ==> ' ' <= s[i] && s[i] as int < 0x80 && s[i] !in "\"\\"
  }

  lemma {:induction false} PlainSize(s: string)
    requires Plain(s)
    ensures EscapedUnits(s) == Units(s) == |s|
  {
    if s != "" {
      PlainSize(s[1..]);
    }
  }

  lemma PlainBounded(s: string, max: nat)
    requires Plain(s) && 1 <= |s| <= max
    ensures Bounded(s, max)
  {
    PlainSize(s);
    assert forall c :: c in s ==> c >= ' ';
  }

  lemma KeyIsPlain(key: string)
    requires IsIssueKey(key)
    ensures Plain(key)
  {
    var d :| 0 <= d < |key| && key[d] == '-' && IsProjectKey(key[..d]) && IsIssueNumber(key[d + 1..]);
    forall i | 0 <= i < |key|
      ensures ' ' <= key[i] && key[i] as int < 0x80 && key[i] !in "\"\\"
    {
      assert i < d ==> key[i] == key[..d][i];
      assert i > d ==> key[i] == key[d + 1..][i - d - 1];
    }
  }

  lemma {:induction false} EscapingLengthens(s: string)
    ensures Units(s) <= EscapedUnits(s)
  {
    if s != "" {
      EscapingLengthens(s[1..]);
    }
  }

  predicate ShortToken(t: string) {
    t != "" && EscapedUnits(t) <= 1888 && forall c :: c in t ==> c != 0 as char
  }

  /** Every token has no NUL and is escaped within 1888 units, and no issue has more than a million histories, no board
      more than a million sprints, no configuration more than a million boards. */
  ghost predicate Ordinary(w: Walk)
    requires w.Shape()
  {
    && (forall t :: t in w.s.tokens ==> ShortToken(t))
    && (forall i :: 0 <= i < w.N() ==> |w.s.histories[i]| <= 1_000_000)
    && |w.cfg.boards| <= 1_000_000
    && (forall b :: 0 <= b < |w.cfg.boards| ==> |w.SprintsAtBoard(b)| <= 1_000_000)
  }

  lemma ShortTokenSize(t: Option<string>)
    requires t.Some? ==> ShortToken(t.value)
    ensures TokenFits(t) && TokenSize(t) <= 1890
  {
    if t.Some? {
      EscapingLengthens(t.value);
    }
  }

  lemma KeySize(key: string)
    requires IsIssueKey(key) && |key| <= 128
    ensures TokenSize(Some(key)) <= 130
  {
    KeyIsPlain(key);
    PlainSize(key);
  }

  function Power(k: nat): nat { if k == 0 then 1 else 10 * Power(k - 1) }

  lemma {:induction false} DigitsOf(n: nat, k: nat)
    requires k >= 1 && n < Power(k)
    ensures DigitCount(n) <= k
  {
    if n >= 10 {
      DigitsOf(n / 10, k - 1);
    }
  }

  lemma MillionDigits(n: nat)
    requires n <= 1_000_000
    ensures DigitCount(n) <= 7
  {
    assert Power(7) == 10_000_000;
    DigitsOf(n, 7);
  }

  lemma SmallCursor(c: Cursor)
    requires !c.Sprints? ==> c.token.Some? ==> ShortToken(c.token.value)
    requires (c.Links? || c.Changelog?) && c.issueKey.Some? ==> IsIssueKey(c.issueKey.value) && |c.issueKey.value| <= 128
    requires c.Links? ==> c.offset <= 1_000_000 && (c.issueKey.None? ==> c.offset == 0)
    requires c.Changelog? ==> c.historyOffset <= 1_000_000 && c.itemOffset <= 1_000_000
    requires c.Changelog? && c.issueKey.None? ==> c.historyOffset == c.itemOffset == 0
    requires c.Sprints? ==> c.boardIndex <= 1_000_000 && c.startAt <= 1_000_000
    ensures Carries(c)
  {
    hide ShortToken, IsIssueKey, DigitCount, Bounded;
    match c {
      case Issues(t) => ShortTokenSize(t);
      case Links(t, k, o) =>
        ShortTokenSize(t);
        if k.Some? { KeySize(k.value); }
        MillionDigits(o);
      case Changelog(t, k, h, o) =>
        ShortTokenSize(t);
        if k.Some? { KeySize(k.value); }
        MillionDigits(h);
        MillionDigits(o);
      case Sprints(b, s) =>
        MillionDigits(b);
        MillionDigits(s);
    }
  }

  lemma PlaceCarries(w: Walk, p: Place)
    requires w.Valid() && Ordinary(w) && w.On(p)
    ensures w.Hears(p) && Carries(w.CursorOf(p))
  {
    if p.InLinks? || p.InLog? {
      IssueFacts(w, p.i);
    }
    if p.InLog? && p.h < |w.s.histories[p.i]| {
      assert w.s.histories[p.i][p.h] in w.s.histories[p.i];
    }
    forall t | t in w.s.tokens
      ensures Bounded(t, LIMIT)
    {
      EscapingLengthens(t);
    }
    hide ShortToken, IsIssueKey, Bounded, Carries;
    SmallCursor(w.CursorOf(p));
  }

  /** On an ordinary listing only the changelog can keep a walk from ending. */
  lemma OrdinaryIsCarried(w: Walk)
    requires w.Valid() && Ordinary(w)
    ensures Carried(w) <==> w.cfg.Selects()
  {
    forall p | Visited(w, p)
      ensures w.Hears(p) && Carries(w.CursorOf(p))
    {
      PlaceCarries(w, p);
    }
  }
}
