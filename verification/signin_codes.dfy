/**
 Sign-in codes (`codes.py`, with `request_code` of `service.py`): how many codes an address is sent,
 and how many guesses a code takes.  Addresses are already normalised, instants are microseconds,
 and the minted code is whatever the caller of `RequestCode` names.
 */
module SigninCodes {

  type Address = string
  type Instant = int

  const ISSUANCE_LIMIT := 5
  const ISSUANCE_WINDOW := 3_600_000_000
  const CODE_LIFETIME := 600_000_000
  const ATTEMPT_CAP := 5

  datatype Window = Window(issued: nat, startedAt: Instant)
  datatype Code = Code(code: string, attempts: nat, expiresAt: Instant)
  datatype Books = Books(windows: map<Address, Window>, codes: map<Address, Code>)
  datatype Attempt = Accepted | Wrong | Exhausted

  const EMPTY := Books(map[], map[])

  // -------------------------------------------------------------- one request, one guess

  predicate Open(window: Window, now: Instant) {
    window.startedAt > now - ISSUANCE_WINDOW
  }

  function Counted(windows: map<Address, Window>, email: Address, now: Instant): Window {
    if email in windows && Open(windows[email], now) then
      windows[email].(issued := windows[email].issued + 1)
    else Window(1, now)
  }

  function Swept(windows: map<Address, Window>, now: Instant): map<Address, Window> {
    map email | email in windows && Open(windows[email], now) :: windows[email]
  }

  predicate Grants(b: Books, email: Address, now: Instant) {
    Counted(b.windows, email, now).issued <= ISSUANCE_LIMIT
  }

  function Request(b: Books, email: Address, code: string, now: Instant): Books {
    if Grants(b, email, now) then
      Books(Swept(b.windows[email := Counted(b.windows, email, now)], now),
            b.codes[email := Code(code, 0, now + CODE_LIFETIME)])
    else b
  }

  /** Whether a guess gets as far as being compared with the code. */
  predicate Compares(b: Books, email: Address, now: Instant) {
    email in b.codes && b.codes[email].expiresAt > now && b.codes[email].attempts < ATTEMPT_CAP
  }

  function Verdict(b: Books, email: Address, code: string, now: Instant): Attempt {
    if Compares(b, email, now) then if b.codes[email].code == code then Accepted else Wrong
    else if email in b.codes && b.codes[email].expiresAt > now then Exhausted
    else Wrong
  }

  function Guess(b: Books, email: Address, code: string, now: Instant): Books {
    if email !in b.codes || Verdict(b, email, code, now) == Exhausted then b
    else if Compares(b, email, now) && Verdict(b, email, code, now) == Wrong then
      b.(codes := b.codes[email := b.codes[email].(attempts := b.codes[email].attempts + 1)])
    else b.(codes := b.codes - {email})
  }

  /** The two tables. */
  class CodeTables {
    var windows: map<Address, Window>
    var codes: map<Address, Code>

    function Now(): Books reads this { Books(windows, codes) }

    constructor ()
      ensures Now() == EMPTY
    {
      windows, codes := map[], map[];
    }

    method CountIssuance(email: Address, now: Instant) returns (issued: nat)
      modifies this`windows
      ensures windows == old(windows)[email := Counted(old(windows), email, now)]
      ensures issued == windows[email].issued
    {
      if email in windows {
        var stillOpen := windows[email].startedAt > now - ISSUANCE_WINDOW;
        windows := windows[email := Window(if stillOpen then windows[email].issued + 1 else 1,
                                           if stillOpen then windows[email].startedAt else now)];
      } else {
        windows := windows[email := Window(1, now)];
      }
      issued := windows[email].issued;
    }

    method SweepClosedWindows(now: Instant)
      modifies this`windows
      ensures windows == Swept(old(windows), now)
    {
      windows := windows - set email | email in windows && windows[email].startedAt <= now - ISSUANCE_WINDOW;
    }

    method Issue(email: Address, code: string, now: Instant)
      modifies this`codes
      ensures codes == old(codes)[email := Code(code, 0, now + CODE_LIFETIME)]
    {
      codes := codes - {email};
      codes := codes[email := Code(code, 0, now + CODE_LIFETIME)];
    }

    /** A refusal leaves by an error, and with it what the transaction had counted. */
    method RequestCode(email: Address, code: string, now: Instant) returns (granted: bool)
      modifies this
      ensures granted == Grants(old(Now()), email, now)
      ensures Now() == Request(old(Now()), email, code, now)
    {
      var before := windows;
      var issued := CountIssuance(email, now);
      if issued > ISSUANCE_LIMIT {
        windows := before;
        return false;
      }
      SweepClosedWindows(now);
      Issue(email, code, now);
      granted := true;
    }

    method Claim(email: Address, code: string, now: Instant) returns (attempt: Attempt)
      modifies this
      ensures attempt == Verdict(old(Now()), email, code, now)
      ensures Now() == Guess(old(Now()), email, code, now)
      ensures windows == old(windows)
      ensures if email !in old(codes) then attempt == Wrong && codes == old(codes)
              else
                var there := old(codes)[email];
                if there.expiresAt <= now then attempt == Wrong && codes == old(codes) - {email}
                else if there.attempts >= 5 then attempt == Exhausted && codes == old(codes)
                else if there.code != code then
                  attempt == Wrong && codes == old(codes)[email := there.(attempts := there.attempts + 1)]
                else attempt == Accepted && codes == old(codes) - {email}
    {
      if email !in codes {
        return Wrong;
      }
      var outstanding := codes[email];
      if outstanding.expiresAt <= now {
        codes := codes - {email};
        return Wrong;
      }
      if outstanding.attempts >= ATTEMPT_CAP {
        return Exhausted;
      }
      if outstanding.code != code {
        codes := codes[email := outstanding.(attempts := outstanding.attempts + 1)];
        return Wrong;
      }
      codes := codes - {email};
      attempt := Accepted;
    }
  }

  // -------------------------------------------------------------- histories

  datatype Act =
    | Asks(email: Address, code: string, at: Instant)
    | Guesses(email: Address, code: string, at: Instant)

  function Step(b: Books, act: Act): Books {
    match act
    case Asks(email, code, at) => Request(b, email, code, at)
    case Guesses(email, code, at) => Guess(b, email, code, at)
  }

  function Replay(acts: seq<Act>): Books {
    if acts == [] then EMPTY else Step(Replay(acts[..|acts| - 1]), acts[|acts| - 1])
  }

  /** One clock that never runs backwards. */
  ghost predicate InOrder(acts: seq<Act>) {
    forall i, j :: 0 <= i < j < |acts| ==> acts[i].at <= acts[j].at
  }

  predicate Sent(b: Books, act: Act, email: Address) {
    act.Asks? && act.email == email && Grants(b, email, act.at)
  }

  predicate Compared(b: Books, act: Act, email: Address) {
    act.Guesses? && act.email == email && Compares(b, email, act.at)
  }

  predicate SignsIn(b: Books, act: Act, email: Address) {
    act.Guesses? && act.email == email && Verdict(b, email, act.code, act.at) == Accepted
  }

  /** How many codes an address was sent from an instant on. */
  function SentSince(acts: seq<Act>, email: Address, since: Instant): nat {
    if acts == [] then 0
    else
      var init, act := acts[..|acts| - 1], acts[|acts| - 1];
      SentSince(init, email, since) + if Sent(Replay(init), act, email) && since <= act.at then 1 else 0
  }

  /** How many codes an address was sent in a half-open stretch of time. */
  function SentWithin(acts: seq<Act>, email: Address, since: Instant, until: Instant): nat {
    if acts == [] then 0
    else
      var init, act := acts[..|acts| - 1], acts[|acts| - 1];
      SentWithin(init, email, since, until)
      + if Sent(Replay(init), act, email) && since <= act.at < until then 1 else 0
  }

  /** How many guesses for an address were compared with a code in a half-open stretch of time. */
  function ComparedWithin(acts: seq<Act>, email: Address, since: Instant, until: Instant): nat {
    if acts == [] then 0
    else
      var init, act := acts[..|acts| - 1], acts[|acts| - 1];
      ComparedWithin(init, email, since, until)
      + if Compared(Replay(init), act, email) && since <= act.at < until then 1 else 0
  }

  lemma {:induction false} WithinIsDifference(acts: seq<Act>, email: Address, since: Instant, until: Instant)
    requires since <= until
    ensures SentWithin(acts, email, since, until) == SentSince(acts, email, since) - SentSince(acts, email, until)
  {
    if acts != [] {
      WithinIsDifference(acts[..|acts| - 1], email, since, until);
    }
  }

  // -------------------------------------------------------------- what sweeping may not change

  /** The window of an address if closed windows were never deleted. */
  function Unswept(acts: seq<Act>): map<Address, Window> {
    if acts == [] then map[]
    else
      var init, act := acts[..|acts| - 1], acts[|acts| - 1];
      var windows := Unswept(init);
      if act.Asks? && Counted(windows, act.email, act.at).issued <= ISSUANCE_LIMIT then
        windows[act.email := Counted(windows, act.email, act.at)]
      else windows
  }

  ghost predicate SameDecisions(swept: map<Address, Window>, unswept: map<Address, Window>, now: Instant) {
    forall email :: if email in swept then email in unswept && unswept[email] == swept[email]
                    else email in unswept ==> !Open(unswept[email], now)
  }

  lemma SameCounted(swept: map<Address, Window>, unswept: map<Address, Window>, email: Address, before: Instant,
                    now: Instant)
    requires SameDecisions(swept, unswept, before) && before <= now
    ensures Counted(swept, email, now) == Counted(unswept, email, now)
  {
  }

  /** Deleting the closed windows never changes a decision, now or later. */
  lemma {:induction false} SweepingIsInvisible(acts: seq<Act>, now: Instant)
    requires InOrder(acts) && forall i :: 0 <= i < |acts| ==> acts[i].at <= now
    ensures SameDecisions(Replay(acts).windows, Unswept(acts), now)
    ensures forall email :: Grants(Replay(acts), email, now) <==>
            Counted(Unswept(acts), email, now).issued <= ISSUANCE_LIMIT
  {
    if acts != [] {
      var init, act := acts[..|acts| - 1], acts[|acts| - 1];
      SweepingIsInvisible(init, act.at);
      SameCounted(Replay(init).windows, Unswept(init), act.email, act.at, act.at);
    }
    forall email
      ensures Grants(Replay(acts), email, now) <==>
              Counted(Unswept(acts), email, now).issued <= ISSUANCE_LIMIT
    {
      SameCounted(Replay(acts).windows, Unswept(acts), email, now, now);
    }
  }

  // -------------------------------------------------------------- how many codes an hour

  /** What the window of an address says about the codes it was sent. */
  ghost predicate Accounts(acts: seq<Act>, email: Address) {
    if email !in Unswept(acts) then forall t :: SentSince(acts, email, t) == 0
    else
      var w := Unswept(acts)[email];
      && 1 <= w.issued <= ISSUANCE_LIMIT
      && SentSince(acts, email, w.startedAt) == w.issued
      && (forall t :: w.startedAt < t ==> SentSince(acts, email, t) < w.issued)
      && (forall t :: w.startedAt + ISSUANCE_WINDOW <= t ==> SentSince(acts, email, t) == 0)
      && (forall t :: t <= w.startedAt < t + ISSUANCE_WINDOW ==> SentSince(acts, email, t) < w.issued + ISSUANCE_LIMIT)
      && forall t, u :: u == t + ISSUANCE_WINDOW ==>
           SentSince(acts, email, t) - SentSince(acts, email, u) < 2 * ISSUANCE_LIMIT
  }

  /** One more code at the instant `now`, counted in a window that is still open. */
  lemma CountsOneMore(init: seq<Act>, acts: seq<Act>, email: Address, now: Instant)
    requires Accounts(init, email) && email in Unswept(init) && email in Unswept(acts)
    requires var w := Unswept(init)[email];
             && w.startedAt <= now && Open(w, now) && w.issued < ISSUANCE_LIMIT
             && Unswept(acts)[email] == w.(issued := w.issued + 1)
    requires forall t :: SentSince(acts, email, t) == SentSince(init, email, t) + if t <= now then 1 else 0
    ensures Accounts(acts, email)
  {
    hide SentSince, Unswept;
  }

  /** One more code, for which a window is opened. */
  lemma CountsAnew(init: seq<Act>, acts: seq<Act>, email: Address, now: Instant)
    requires Accounts(init, email) && email in Unswept(acts) && Unswept(acts)[email] == Window(1, now)
    requires email in Unswept(init) ==> !Open(Unswept(init)[email], now)
    requires forall t :: SentSince(acts, email, t) == SentSince(init, email, t) + if t <= now then 1 else 0
    ensures Accounts(acts, email)
  {
    hide SentSince, Unswept;
  }

  lemma {:induction false} WindowAccounts(acts: seq<Act>, email: Address)
    requires InOrder(acts)
    ensures Accounts(acts, email)
    ensures email in Unswept(acts) && acts != [] ==> Unswept(acts)[email].startedAt <= acts[|acts| - 1].at
  {
    if acts != [] {
      hide Accounts;
      var init, act := acts[..|acts| - 1], acts[|acts| - 1];
      WindowAccounts(init, email);
      SweepingIsInvisible(init, act.at);
      if Sent(Replay(init), act, email) {
        assert email in Unswept(acts);
        if email in Unswept(init) && Open(Unswept(init)[email], act.at) {
          CountsOneMore(init, acts, email, act.at);
        } else {
          CountsAnew(init, acts, email, act.at);
        }
      } else {
        assert Unswept(acts) == Unswept(init) || (act.Asks? && act.email != email);
        CountsNothing(init, acts, email);
      }
    } else {
      assert Accounts(acts, email);
    }
  }

  lemma CountsNothing(init: seq<Act>, acts: seq<Act>, email: Address)
    requires Accounts(init, email) && (email in Unswept(acts) <==> email in Unswept(init))
    requires email in Unswept(init) ==> Unswept(acts)[email] == Unswept(init)[email]
    requires forall t :: SentSince(acts, email, t) == SentSince(init, email, t)
    ensures Accounts(acts, email)
  {
    hide SentSince, Unswept;
  }

  /** Main result: whatever is asked for, and whenever, an address is sent at most nine codes in any
      half-open hour: one window's five, and all but the opening one of the window before. */
  lemma AtMostNineAnHour(acts: seq<Act>, email: Address, t: Instant)
    requires InOrder(acts)
    ensures SentWithin(acts, email, t, t + 3_600_000_000) <= 9
  {
    WindowAccounts(acts, email);
    WithinIsDifference(acts, email, t, t + ISSUANCE_WINDOW);
  }

  function Burst(acts: seq<Act>, email: Address, at: Instant, n: nat): seq<Act> {
    if n == 0 then acts else Burst(acts, email, at, n - 1) + [Asks(email, "", at)]
  }

  ghost predicate EndsBy(acts: seq<Act>, now: Instant) {
    InOrder(acts) && forall i :: 0 <= i < |acts| ==> acts[i].at <= now
  }

  lemma OneAsk(acts: seq<Act>, email: Address, at: Instant, since: Instant, until: Instant)
    requires EndsBy(acts, at) && Counted(Unswept(acts), email, at).issued <= ISSUANCE_LIMIT && since <= at < until
    ensures var more := acts + [Asks(email, "", at)];
            && EndsBy(more, at)
            && Unswept(more) == Unswept(acts)[email := Counted(Unswept(acts), email, at)]
            && SentWithin(more, email, since, until) == SentWithin(acts, email, since, until) + 1
  {
    var more := acts + [Asks(email, "", at)];
    assert more[..|more| - 1] == acts;
    assert InOrder(more);
    SweepingIsInvisible(acts, at);
    hide InOrder, SameDecisions, Replay, Counted, Grants;
    assert Sent(Replay(acts), Asks(email, "", at), email);
  }

  lemma {:induction false} BurstIsSent(acts: seq<Act>, email: Address, at: Instant, n: nat, since: Instant,
                                       until: Instant)
    requires EndsBy(acts, at) && email in Unswept(acts) && since <= at < until
    requires Open(Unswept(acts)[email], at) && Unswept(acts)[email].issued + n <= ISSUANCE_LIMIT
    ensures var more, w := Burst(acts, email, at, n), Unswept(acts)[email];
            && EndsBy(more, at)
            && Unswept(more) == Unswept(acts)[email := w.(issued := w.issued + n)]
            && SentWithin(more, email, since, until) == SentWithin(acts, email, since, until) + n
  {
    hide Unswept, SentWithin, EndsBy;
    if n > 0 {
      BurstIsSent(acts, email, at, n - 1, since, until);
      OneAsk(Burst(acts, email, at, n - 1), email, at, since, until);
    } else {
      assert Unswept(acts)[email := Unswept(acts)[email].(issued := Unswept(acts)[email].issued + n)] == Unswept(acts);
    }
  }

  /** Nine is the exact bound: one code at the start of a window, four just before it closes and five
      just after. */
  lemma NineAreReached(email: Address) returns (acts: seq<Act>, t: Instant)
    ensures InOrder(acts) && SentWithin(acts, email, t, t + 3_600_000_000) == 9
  {
    hide Burst, InOrder, Unswept, SentWithin;
    t := ISSUANCE_WINDOW - 1;
    var until := t + ISSUANCE_WINDOW;
    FirstAsk(email, t, until);
    var first := [Asks(email, "", 0)];
    BurstIsSent(first, email, t, 4, t, until);
    var hour := Burst(first, email, t, 4);
    EndsLater(hour, t, ISSUANCE_WINDOW);
    OneAsk(hour, email, ISSUANCE_WINDOW, t, until);
    var next := hour + [Asks(email, "", ISSUANCE_WINDOW)];
    BurstIsSent(next, email, ISSUANCE_WINDOW, 4, t, until);
    acts := Burst(next, email, ISSUANCE_WINDOW, 4);
  }

  lemma EndsLater(acts: seq<Act>, now: Instant, later: Instant)
    requires EndsBy(acts, now) && now <= later
    ensures EndsBy(acts, later)
  {
  }

  lemma FirstAsk(email: Address, since: Instant, until: Instant)
    requires 0 < since
    ensures var acts := [Asks(email, "", 0)];
            && EndsBy(acts, since)
            && Unswept(acts) == map[email := Window(1, 0)] && SentWithin(acts, email, since, until) == 0
  {
    var acts := [Asks(email, "", 0)];
    assert acts[..0] == [];
    assert Unswept([]) == map[] && SentWithin([], email, since, until) == 0;
  }

  /** Within a window it is five: the sixth request before the window closes is refused. */
  lemma AtMostFiveAWindow(acts: seq<Act>, email: Address)
    requires InOrder(acts) && email in Unswept(acts)
    ensures var w := Unswept(acts)[email];
            SentSince(acts, email, w.startedAt) == w.issued <= 5
  {
    WindowAccounts(acts, email);
  }

  // -------------------------------------------------------------- how many guesses

  function Left(b: Books, email: Address): int {
    if email in b.codes then ATTEMPT_CAP - b.codes[email].attempts else 0
  }

  lemma {:induction false} AttemptsCapped(acts: seq<Act>, email: Address)
    ensures email in Replay(acts).codes ==> Replay(acts).codes[email].attempts <= ATTEMPT_CAP
  {
    if acts != [] {
      AttemptsCapped(acts[..|acts| - 1], email);
    }
  }

  lemma {:induction false} GuessesAreBounded(acts: seq<Act>, email: Address, since: Instant, until: Instant)
    requires InOrder(acts) && forall i :: 0 <= i < |acts| ==> acts[i].at < until
    ensures ComparedWithin(acts, email, since, until) + Left(Replay(acts), email)
            <= ATTEMPT_CAP * (SentWithin(acts, email, since, until) + 1)
  {
    AttemptsCapped(acts, email);
    if acts != [] {
      var init, act := acts[..|acts| - 1], acts[|acts| - 1];
      GuessesAreBounded(init, email, since, until);
      AttemptsCapped(init, email);
      if act.at < since {
        NothingYet(acts, email, since, until);
      }
    }
  }

  lemma {:induction false} NothingYet(acts: seq<Act>, email: Address, since: Instant, until: Instant)
    requires forall i :: 0 <= i < |acts| ==> acts[i].at < since
    ensures ComparedWithin(acts, email, since, until) == SentWithin(acts, email, since, until) == 0
  {
    if acts != [] {
      NothingYet(acts[..|acts| - 1], email, since, until);
    }
  }

  /** Guesses against an address are compared at most fifty times in any half-open hour: five for the
      code that was outstanding and five for each one sent. */
  lemma {:induction false} AtMostFiftyGuessesAnHour(acts: seq<Act>, email: Address, t: Instant)
    requires InOrder(acts)
    ensures ComparedWithin(acts, email, t, t + 3_600_000_000)
            <= 5 * (SentWithin(acts, email, t, t + 3_600_000_000) + 1) <= 50
  {
    var until := t + ISSUANCE_WINDOW;
    AtMostNineAnHour(acts, email, t);
    if acts != [] && acts[|acts| - 1].at >= until {
      AtMostFiftyGuessesAnHour(acts[..|acts| - 1], email, t);
    } else {
      GuessesAreBounded(acts, email, t, until);
      AttemptsCapped(acts, email);
    }
  }

  // -------------------------------------------------------------- which code signs in

  /** The code sent by act `i` is still the one that counts. */
  ghost predicate Outstanding(acts: seq<Act>, email: Address, i: int) {
    && 0 <= i < |acts| && Sent(Replay(acts[..i]), acts[i], email)
    && forall j :: i < j < |acts| ==>
         !Sent(Replay(acts[..j]), acts[j], email) && !SignsIn(Replay(acts[..j]), acts[j], email)
  }

  lemma OutstandingStays(init: seq<Act>, act: Act, email: Address, i: int)
    requires Outstanding(init, email, i)
    requires !Sent(Replay(init), act, email) && !SignsIn(Replay(init), act, email)
    ensures Outstanding(init + [act], email, i)
  {
    var acts := init + [act];
    assert acts[..i] == init[..i] && acts[..|init|] == init;
    forall j | i < j < |acts|
      ensures !Sent(Replay(acts[..j]), acts[j], email) && !SignsIn(Replay(acts[..j]), acts[j], email)
    {
      if j < |init| {
        assert acts[..j] == init[..j];
      }
    }
  }

  lemma {:induction false} CodeIsTheLatest(acts: seq<Act>, email: Address) returns (i: int)
    requires email in Replay(acts).codes
    ensures Outstanding(acts, email, i)
    ensures Replay(acts).codes[email].code == acts[i].code
    ensures Replay(acts).codes[email].expiresAt == acts[i].at + CODE_LIFETIME
  {
    var init, act := acts[..|acts| - 1], acts[|acts| - 1];
    assert acts == init + [act];
    if Sent(Replay(init), act, email) {
      i := |acts| - 1;
    } else {
      i := CodeIsTheLatest(init, email);
      OutstandingStays(init, act, email, i);
    }
  }

  /** How many guesses for the address were compared with a code after act `i`. */
  function ComparedAfter(acts: seq<Act>, email: Address, i: int): nat {
    if acts == [] || |acts| <= i + 1 then 0
    else
      var init, act := acts[..|acts| - 1], acts[|acts| - 1];
      ComparedAfter(init, email, i) + if Compared(Replay(init), act, email) then 1 else 0
  }

  lemma OutstandingBefore(init: seq<Act>, act: Act, email: Address, i: int)
    requires Outstanding(init + [act], email, i) && i < |init|
    ensures Outstanding(init, email, i)
    ensures !Sent(Replay(init), act, email) && !SignsIn(Replay(init), act, email)
  {
    hide Replay, Sent, SignsIn;
    var acts := init + [act];
    assert acts[..i] == init[..i] && acts[..|init|] == init;
    forall j | i < j < |init|
      ensures !Sent(Replay(init[..j]), init[j], email) && !SignsIn(Replay(init[..j]), init[j], email)
    {
      assert acts[..j] == init[..j] && acts[j] == init[j];
    }
  }

  lemma OutstandingStep(b: Books, act: Act, email: Address, code: Code)
    requires email in b.codes && b.codes[email] == code && act.at < code.expiresAt && code.attempts <= 5
    requires !Sent(b, act, email) && !SignsIn(b, act, email)
    ensures var t := Step(b, act);
            && email in t.codes
            && t.codes[email] == code.(attempts := code.attempts + if Compared(b, act, email) then 1 else 0)
            && t.codes[email].attempts <= 5
  {
  }

  lemma OutstandingIsIndex(acts: seq<Act>, email: Address, i: int)
    requires Outstanding(acts, email, i)
    ensures 0 <= i < |acts|
  {
  }

  /** As long as it is neither replaced, used nor expired, the code is there, with the guesses compared
      so far counted. */
  lemma {:induction false} CodeIsThere(acts: seq<Act>, email: Address, i: int)
    requires Outstanding(acts, email, i) && forall j :: i <= j < |acts| ==> acts[j].at < acts[i].at + 600_000_000
    ensures 0 <= i < |acts|
    ensures var b := Replay(acts);
            && email in b.codes && b.codes[email].attempts <= 5
            && b.codes[email] == Code(acts[i].code, ComparedAfter(acts, email, i), acts[i].at + 600_000_000)
    decreases |acts|
  {
    hide Outstanding, Step, Sent, SignsIn, Compared;
    OutstandingIsIndex(acts, email, i);
    var init, act := acts[..|acts| - 1], acts[|acts| - 1];
    assert acts == init + [act];
    if i < |init| {
      OutstandingBefore(init, act, email, i);
      assert forall j :: i <= j < |init| ==> init[j] == acts[j];
      CodeIsThere(init, email, i);
      OutstandingStep(Replay(init), act, email, Replay(init).codes[email]);
    } else {
      CodeIsSent(init, act, email);
    }
  }

  lemma CodeIsSent(init: seq<Act>, act: Act, email: Address)
    requires Outstanding(init + [act], email, |init|)
    ensures Sent(Replay(init), act, email)
    ensures email in Step(Replay(init), act).codes
    ensures Step(Replay(init), act).codes[email] == Code(act.code, 0, act.at + 600_000_000)
  {
    assert (init + [act])[..|init|] == init;
    hide Replay, Counted, Swept, SignsIn, Grants;
  }

  /** Main result: a guess signs in if and only if it names the code of the last request granted to the
      address, less than ten minutes old, not used before, and with fewer than five guesses compared
      since. */
  lemma SignsInExactly(acts: seq<Act>, guess: Act, email: Address)
    requires InOrder(acts + [guess]) && guess.Guesses? && guess.email == email
    ensures SignsIn(Replay(acts), guess, email) <==>
            exists i :: && Outstanding(acts, email, i) && guess.code == acts[i].code
                        && guess.at < acts[i].at + 600_000_000 && ComparedAfter(acts, email, i) < 5
  {
    hide Replay, ComparedAfter, SignsIn, Sent, InOrder;
    forall i | Outstanding(acts, email, i) && guess.at < acts[i].at + 600_000_000
      ensures SignsIn(Replay(acts), guess, email) <==>
              guess.code == acts[i].code && ComparedAfter(acts, email, i) < 5
    {
      SignsInWith(acts, guess, email, i);
    }
    if SignsIn(Replay(acts), guess, email) {
      var i := SignInUsesLatestCode(acts, guess, email);
    }
  }

  lemma SignsInWith(acts: seq<Act>, guess: Act, email: Address, i: int)
    requires InOrder(acts + [guess]) && guess.Guesses? && guess.email == email
    requires Outstanding(acts, email, i) && guess.at < acts[i].at + 600_000_000
    ensures SignsIn(Replay(acts), guess, email) <==>
            guess.code == acts[i].code && ComparedAfter(acts, email, i) < 5
  {
    var all := acts + [guess];
    forall j | i <= j < |acts|
      ensures acts[j].at < acts[i].at + 600_000_000
    {
      assert all[j].at <= all[|acts|].at;
    }
    CodeIsThere(acts, email, i);
  }

  /** Whoever signs in names the code of the last request granted to the address, less
      than ten minutes old and not used before. */
  lemma SignInUsesLatestCode(acts: seq<Act>, guess: Act, email: Address) returns (i: int)
    requires SignsIn(Replay(acts), guess, email)
    ensures Outstanding(acts, email, i)
    ensures guess.code == acts[i].code && guess.at < acts[i].at + 600_000_000
  {
    i := CodeIsTheLatest(acts, email);
  }
}
