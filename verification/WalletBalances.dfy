/**
 Balance loading in src/providers/WalletProvider.jsx: overlapping fetches
 guarded by a token that only grows. Fetches complete or fail in any order.
 */
module WalletBalances {
  import opened Wrappers

  type Address = string
  type Token = nat

  datatype Result<T> = Unfunded | Snapshot(value: T) | Failure(message: string)

  /** The balances state; `owner` names the fetch a result came from, which the source does not keep. */
  datatype Display<T> = Idle | Loading | Showing(result: Result<T>, owner: Token)

  datatype Wallet<T> = Wallet(
    token: Token,                        // balanceFetchTokenRef.current
    display: Display<T>,
    pending: map<Token, Address>,        // fetches begun and not yet settled
    connected: Option<Address>)          // the address of the connected session

  /** The session changes first; the effect that reacts to it runs later. */
  datatype Step<T> =
    | SessionChange(to: Option<Address>)
    | ConnectTo(address: Address)        // the effect on a new connected address
    | Disconnect                         // the effect on a lost address
    | Refresh                            // refreshBalances
    | Settle(token: Token, result: Result<T>)

  function Initial<T>(): Wallet<T> {
    Wallet(0, Idle, map[], None)
  }

  predicate Enabled<T>(w: Wallet<T>, st: Step<T>) {
    st.Settle? ==> st.token in w.pending
  }

  /** `loadBalancesFor` up to its await. */
  function Begin<T>(w: Wallet<T>, a: Address): Wallet<T> {
    w.(token := w.token + 1, display := Loading, pending := w.pending[w.token + 1 := a])
  }

  function Next<T>(w: Wallet<T>, st: Step<T>): Wallet<T>
    requires Enabled(w, st)
  {
    match st
    case SessionChange(to) => w.(connected := to)
    case ConnectTo(a) => Begin(w, a)
    case Disconnect => w.(token := w.token + 1, display := Idle)
    case Refresh => if w.connected.Some? then Begin(w, w.connected.value) else w
    case Settle(t, result) =>
      var settled := w.(pending := w.pending - {t});
      if t != w.token then settled else settled.(display := Showing(result, t))
  }

  ghost predicate IsRun<T>(run: seq<Step<T>>)
    decreases |run|, 0
  {
    run != [] ==> IsRun(run[..|run| - 1]) && Enabled(After(run[..|run| - 1]), run[|run| - 1])
  }

  ghost function After<T>(run: seq<Step<T>>): Wallet<T>
    requires IsRun(run)
    decreases |run|, 1
  {
    if run == [] then Initial() else Next(After(run[..|run| - 1]), run[|run| - 1])
  }

  // ---------------------------------------------------------------------
  // The most recent fetch, read off the run
  // ---------------------------------------------------------------------

  predicate Begins<T>(w: Wallet<T>, st: Step<T>) {
    st.ConnectTo? || (st.Refresh? && w.connected.Some?)
  }

  /** The last thing that happened to the display: a fetch begun for this address, or nothing to show. */
  datatype Latest = NoFetch | Fetch(token: Token, address: Address)

  ghost function LatestOf<T>(run: seq<Step<T>>): Latest
    requires IsRun(run)
  {
    if run == [] then NoFetch
    else
      var front, st := run[..|run| - 1], run[|run| - 1];
      var w := After(front);
      if Begins(w, st) then Fetch(w.token + 1, if st.ConnectTo? then st.address else w.connected.value)
      else if st.Disconnect? then NoFetch
      else LatestOf(front)
  }

  /** The result with which a fetch settled, if it has. */
  ghost function SettledAs<T>(run: seq<Step<T>>, t: Token): Option<Result<T>>
    requires IsRun(run)
  {
    if run == [] then None
    else
      var st := run[|run| - 1];
      if st.Settle? && st.token == t then Some(st.result) else SettledAs(run[..|run| - 1], t)
  }

  ghost predicate TokensHold<T>(w: Wallet<T>) {
    forall t :: t in w.pending ==> 1 <= t <= w.token
  }

  lemma {:induction false} TokensGrow<T>(run: seq<Step<T>>, t: Token)
    requires IsRun(run)
    ensures TokensHold(After(run))
    ensures t > After(run).token ==> SettledAs(run, t).None?
    ensures LatestOf(run).Fetch? ==> LatestOf(run).token == After(run).token
    decreases |run|
  {
    if run != [] { TokensGrow(run[..|run| - 1], t); }
  }

  /** The latest fetch is under way, or has settled once and for all. */
  ghost predicate DisplayMatches<T>(run: seq<Step<T>>)
    requires IsRun(run)
  {
    var w := After(run);
    match LatestOf(run)
    case NoFetch => w.display.Idle? && w.token !in w.pending
    case Fetch(t, a) =>
      && t == w.token
      && (match SettledAs(run, t)
          case None => w.display.Loading? && t in w.pending && w.pending[t] == a
          case Some(result) => w.display == Showing(result, t) && t !in w.pending)
  }

  /**
   Whatever the interleaving, the display is a function of the most recent
   fetch: idle without one, loading until it settles, and then its own result.
   */
  lemma {:induction false} DisplayFollowsLatest<T>(run: seq<Step<T>>)
    requires IsRun(run)
    ensures DisplayMatches(run)
    decreases |run|
  {
    if run != [] {
      var front, st := run[..|run| - 1], run[|run| - 1];
      var w := After(front);
      DisplayFollowsLatest(front);
      TokensGrow(front, w.token + 1);
    }
  }

  /** A displayed result belongs to the most recently issued fetch and is what that fetch returned. */
  lemma ShownResultIsLatest<T>(run: seq<Step<T>>)
    requires IsRun(run) && After(run).display.Showing?
    ensures LatestOf(run).Fetch? && After(run).display.owner == LatestOf(run).token
    ensures SettledAs(run, LatestOf(run).token) == Some(After(run).display.result)
  {
    DisplayFollowsLatest(run);
  }

  /** After the disconnect effect, until the wallet connects again, the display stays idle whatever is still pending. */
  lemma {:induction false} DisconnectStaysIdle<T>(run: seq<Step<T>>, more: seq<Step<T>>)
    requires IsRun(run) && run != [] && run[|run| - 1].Disconnect? && After(run).connected.None?
    requires IsRun(run + more)
    requires forall i :: 0 <= i < |more| ==> !more[i].ConnectTo? && (more[i].SessionChange? ==> more[i].to.None?)
    ensures After(run + more).display.Idle? && After(run + more).connected.None?
    ensures LatestOf(run + more).NoFetch?
    decreases |more|
  {
    var all := run + more;
    if more == [] {
      assert all == run;
    } else {
      var front := more[..|more| - 1];
      assert all[..|all| - 1] == run + front && all[|all| - 1] == more[|more| - 1];
      DisconnectStaysIdle(run, front);
      DisplayFollowsLatest(run + front);
    }
    DisplayFollowsLatest(all);
  }

  /** A fetch overtaken by another or by a disconnect settles without effect on the display. */
  lemma StaleFetchIsIgnored<T>(run: seq<Step<T>>, t: Token, result: Result<T>)
    requires IsRun(run) && t in After(run).pending
    requires LatestOf(run) == NoFetch || LatestOf(run).token != t
    ensures Next(After(run), Settle(t, result)).display == After(run).display
  {
    DisplayFollowsLatest(run);
  }
}
