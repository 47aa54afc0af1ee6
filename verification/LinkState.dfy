/**
 Two tasks set the network interface up and down: the link thread, which follows the PHY, and the
 application's poll, which follows the link flag. A step is one read or one write of a flag.
 */
module LinkState {
  import opened Basics

  /** Values of LAN8742_GetLinkState: errors are negative, and 6 means that autonegotiation is not done. */
  const PHY_LINK_DOWN := 1
  const PHY_100M_FULL := 2
  const PHY_100M_HALF := 3
  const PHY_10M_FULL := 4
  const PHY_10M_HALF := 5
  const PHY_AUTONEGO_NOTDONE := 6

  datatype Mode = Mode(fast: bool, fullDuplex: bool)

  /** 2 to 5 are the negotiated modes: the first two are fast, the even ones full duplex. */
  function Negotiated(phy: int): (mode: Option<Mode>)
    ensures mode.Some? <==> 2 <= phy <= 5
    ensures mode.Some? ==> mode.value == Mode(phy <= 3, phy % 2 == 0)
  {
    if phy == PHY_100M_FULL then Some(Mode(true, true))
    else if phy == PHY_100M_HALF then Some(Mode(true, false))
    else if phy == PHY_10M_FULL then Some(Mode(false, true))
    else if phy == PHY_10M_HALF then Some(Mode(false, false))
    else None
  }

  /** gState of the driver. */
  datatype Driver = Ready | Busy | Started | Failed

  /**
   Where the link thread is: between its rounds; inside HAL_ETH_Stop_IT, before its check of gState and before
   each of its three effects; about to set the interface's two flags down; and the same for setting it up.
   */
  datatype LinkPc =
    | Rest
    | Stopping | StopChecked | StopBusy | StopQuiet | SettingDown | SettingLinkDown
    | Starting | StartChecked | StartBusy | StartListening | SettingUp | SettingLinkUp

  datatype PollPc = BeforeInit | Idle | Writing(linkNow: bool)

  /**
   `known` stands for the link thread's linkchanged, speed and duplex: the thread sets them together, and
   never clears linkchanged. `irq` tells whether the driver's error interrupt is enabled. `last` is
   last_link_state, None for its first value 0xFF. `moved` tells whether the link thread has completed a
   transition.
   */
  datatype State = State(
    linkUp: bool, ifUp: bool, driver: Driver, irq: bool, mac: Option<Mode>,
    link: LinkPc, known: Option<Mode>,
    poll: PollPc, last: Option<bool>,
    moved: bool)

  /**
   After MX_LWIP_Init: the flags as the PHY was found, and then the interface set up in any case. A link that
   is up without a finished negotiation is taken as 100 Mbit/s full duplex here. If a bus error struck while the
   driver was started, its interrupts are disabled.
   */
  function Boot(phy: int, struck: bool): State {
    var up := phy > PHY_LINK_DOWN;
    var mode := if Negotiated(phy).Some? then Negotiated(phy) else Some(Mode(true, true));
    State(up, true, if up then Started else Ready, up && !struck, if up then mode else None, Rest, None, BeforeInit, None, false)
  }

  datatype Action = LinkReads(phy: int) | LinkMoves | BusError | PollInit | PollReads | PollWrites

  /** A fatal bus error is noticed while its interrupt is enabled. */
  predicate Enabled(s: State, a: Action) {
    match a
    case LinkReads(_) => s.link.Rest?
    case LinkMoves => !s.link.Rest?
    case BusError => s.irq
    case PollInit => s.poll.BeforeInit?
    case PollReads => s.poll.Idle?
    case PollWrites => s.poll.Writing?
  }

  /** The link thread's reading of the PHY; HAL_ETH_SetMACConfig does nothing unless gState is READY. */
  function Read(s: State, phy: int): State {
    if s.linkUp && phy <= PHY_LINK_DOWN then
      s.(link := Stopping)
    else if !s.linkUp && phy > PHY_LINK_DOWN then
      var known := if Negotiated(phy).Some? then Negotiated(phy) else s.known;
      if known.Some? then s.(known := known, mac := if s.driver.Ready? then known else s.mac, link := Starting) else s
    else
      s
  }

  /** The other steps of the link thread. HAL_ETH_Stop_IT and HAL_ETH_Start_IT check gState once, and return at once from any other state. */
  function Moved(s: State): State
    requires !s.link.Rest?
  {
    match s.link
    case Stopping => s.(link := if s.driver.Started? then StopChecked else SettingDown)
    case StopChecked => s.(driver := Busy, link := StopBusy)
    case StopBusy => s.(irq := false, link := StopQuiet)
    case StopQuiet => s.(driver := Ready, link := SettingDown)
    case SettingDown => s.(ifUp := false, link := SettingLinkDown)
    case SettingLinkDown => s.(linkUp := false, link := Rest, moved := true)
    case Starting => s.(link := if s.driver.Ready? then StartChecked else SettingUp)
    case StartChecked => s.(driver := Busy, link := StartBusy)
    case StartBusy => s.(irq := true, link := StartListening)
    case StartListening => s.(driver := Started, link := SettingUp)
    case SettingUp => s.(ifUp := true, link := SettingLinkUp)
    case SettingLinkUp => s.(linkUp := true, link := Rest, moved := true)
  }

  function Next(s: State, a: Action): State
    requires Enabled(s, a)
  {
    match a
    case LinkReads(phy) => Read(s, phy)
    case LinkMoves => Moved(s)
    case BusError => s.(driver := Failed, irq := false)
    case PollInit => s.(last := Some(s.linkUp), poll := Idle)
    case PollReads =>
      if s.last != Some(s.linkUp) then s.(last := Some(s.linkUp), poll := Writing(s.linkUp)) else s
    case PollWrites => s.(ifUp := s.poll.linkNow, poll := Idle)
  }

  predicate Legal(s: State, run: seq<Action>)
    decreases |run|
  {
    run == [] || (Enabled(s, run[0]) && Legal(Next(s, run[0]), run[1..]))
  }

  function After(s: State, run: seq<Action>): State
    requires Legal(s, run)
    decreases |run|
  {
    if run == [] then s else After(Next(s, run[0]), run[1..])
  }

  ghost predicate Reachable(s: State) {
    exists phy, struck, run :: Legal(Boot(phy, struck), run) && After(Boot(phy, struck), run) == s
  }

  /** Both tasks are between two rounds. */
  predicate AtRest(s: State) {
    s.link.Rest? && s.poll.Idle?
  }

  /** The interface follows the link, or the next poll will notice that it does not. */
  predicate Settled(s: State) {
    s.ifUp == s.linkUp || s.last != Some(s.linkUp)
  }

  /** The board came up without a link, and the link thread has not completed a transition yet. */
  predicate BootedDown(s: State) {
    !s.moved && !s.linkUp && s.ifUp
  }

  predicate GoingDown(pc: LinkPc) {
    pc.Stopping? || pc.StopChecked? || pc.StopBusy? || pc.StopQuiet? || pc.SettingDown? || pc.SettingLinkDown?
  }

  predicate GoingUp(pc: LinkPc) {
    pc.Starting? || pc.StartChecked? || pc.StartBusy? || pc.StartListening? || pc.SettingUp? || pc.SettingLinkUp?
  }

  /** What gState can be at each place of the link thread. */
  predicate DriverFits(s: State) {
    && (s.driver.Failed? || s.driver.Ready? ==> !s.irq)
    && (s.link.StopQuiet? || s.link.StartChecked? || s.link.StartBusy? ==> !s.irq)
    && match s.link
       case Rest => s.driver.Failed? || s.driver == if s.linkUp then Started else Ready
       case Stopping | StopChecked => s.driver.Started? || s.driver.Failed?
       case StopBusy | StopQuiet => s.driver.Busy? || s.driver.Failed?
       case SettingDown | SettingLinkDown => s.driver.Ready? || s.driver.Failed?
       case Starting => s.driver.Ready? || s.driver.Failed?
       case StartChecked => s.driver.Ready?
       case StartBusy => s.driver.Busy?
       case StartListening => s.driver.Busy? || s.driver.Failed?
       case SettingUp | SettingLinkUp => s.driver.Started? || s.driver.Failed?
  }

  predicate FlagsFit(s: State) {
    && (s.poll.BeforeInit? <==> s.last.None?)
    && (s.poll.Writing? ==> s.last == Some(s.poll.linkNow))
    && (GoingDown(s.link) ==> s.linkUp)
    && (GoingUp(s.link) ==> !s.linkUp && s.known.Some?)
    && (s.link.SettingLinkDown? && !s.poll.Writing? ==> !s.ifUp || s.last == Some(true))
    && (s.link.SettingLinkUp? && !s.poll.Writing? ==> s.ifUp || s.last == Some(false))
    && (s.link.Rest? && s.poll.BeforeInit? ==> s.ifUp == s.linkUp || BootedDown(s))
    && (AtRest(s) ==> Settled(s) || BootedDown(s))
    && (!s.moved && s.last.Some? ==> s.last == Some(s.linkUp))
  }

  predicate Invariant(s: State) {
    DriverFits(s) && FlagsFit(s)
  }

  lemma DownDriverFits(s: State)
    requires Invariant(s) && GoingDown(s.link)
    ensures DriverFits(Moved(s))
  {
  }

  lemma UpDriverFits(s: State)
    requires Invariant(s) && GoingUp(s.link)
    ensures DriverFits(Moved(s))
  {
  }

  lemma DownFlagsFit(s: State)
    requires Invariant(s) && GoingDown(s.link)
    ensures FlagsFit(Moved(s))
  {
  }

  lemma UpFlagsFit(s: State)
    requires Invariant(s) && GoingUp(s.link)
    ensures FlagsFit(Moved(s))
  {
  }

  lemma ReadFits(s: State, phy: int)
    requires Invariant(s) && s.link.Rest?
    ensures Invariant(Read(s, phy))
  {
  }

  lemma PollFits(s: State, a: Action)
    requires Invariant(s) && Enabled(s, a) && (a.PollInit? || a.PollReads? || a.PollWrites?)
    ensures Invariant(Next(s, a))
  {
    var t := Next(s, a);
    assert t.link == s.link && t.linkUp == s.linkUp;
  }

  lemma InvariantKept(s: State, a: Action)
    requires Invariant(s) && Enabled(s, a)
    ensures Invariant(Next(s, a))
  {
    match a
    case LinkReads(phy) => ReadFits(s, phy);
    case LinkMoves =>
      if GoingDown(s.link) {
        DownDriverFits(s);
        DownFlagsFit(s);
      } else {
        UpDriverFits(s);
        UpFlagsFit(s);
      }
    case BusError =>
    case _ => PollFits(s, a);
  }

  lemma {:induction false} InvariantAlong(s: State, run: seq<Action>)
    requires Invariant(s) && Legal(s, run)
    ensures Invariant(After(s, run))
    decreases |run|
  {
    if run != [] {
      InvariantKept(s, run[0]);
      InvariantAlong(Next(s, run[0]), run[1..]);
    }
  }

  lemma ReachableInvariant(s: State)
    requires Reachable(s)
    ensures Invariant(s)
  {
    var phy, struck, run :| Legal(Boot(phy, struck), run) && After(Boot(phy, struck), run) == s;
    InvariantAlong(Boot(phy, struck), run);
  }

  lemma RunOfOne(s: State, a: Action)
    requires Enabled(s, a)
    ensures Legal(s, [a]) && After(s, [a]) == Next(s, a)
  {
    var t := Next(s, a);
    assert Legal(t, []) && After(t, []) == t;
    assert [a][1..] == [];
  }

  // ------------------------------------------------------------------ the theorems

  /**
   At rest the interface follows the link, or the poll remembers another state than the link's, in every
   interleaving from the first transition on; the one exception is a board that came up without a link.
   */
  lemma InterfaceFollowsLink(s: State)
    requires Reachable(s) && AtRest(s)
    ensures s.moved ==> Settled(s)
    ensures Settled(s) <==> !BootedDown(s)
  {
    ReachableInvariant(s);
  }

  /** One call of the poll. */
  function OnePoll(s: State): seq<Action> {
    if s.last != Some(s.linkUp) then [PollReads, PollWrites] else [PollReads]
  }

  /** One poll that nothing disturbs restores agreement, exactly where it is not the exception. */
  lemma OnePollRestores(s: State)
    requires Reachable(s) && AtRest(s)
    ensures Legal(s, OnePoll(s)) && AtRest(After(s, OnePoll(s)))
    ensures var t := After(s, OnePoll(s)); t.ifUp == t.linkUp <==> !BootedDown(s)
    ensures After(s, OnePoll(s)).linkUp == s.linkUp
  {
    ReachableInvariant(s);
    if s.last != Some(s.linkUp) {
      RunOfOne(Next(s, PollReads), PollWrites);
      assert OnePoll(s)[1..] == [PollWrites];
    } else {
      RunOfOne(s, PollReads);
    }
  }

  /** How many steps of its round the link thread still takes at most. */
  function StepsLeft(pc: LinkPc): nat {
    match pc
    case Rest => 0
    case SettingLinkDown | SettingLinkUp => 1
    case SettingDown | SettingUp => 2
    case StopQuiet | StartListening => 3
    case StopBusy | StartBusy => 4
    case StopChecked | StartChecked => 5
    case Stopping | Starting => 6
  }

  /** The link thread alone, until its round is over. */
  function RestOfRound(s: State): seq<Action>
    decreases StepsLeft(s.link)
  {
    if s.link.Rest? then [] else [LinkMoves] + RestOfRound(Moved(s))
  }

  /** One undisturbed round of the link thread. */
  function OneRound(s: State, phy: int): seq<Action>
    requires s.link.Rest?
  {
    [LinkReads(phy)] + RestOfRound(Read(s, phy))
  }

  /** gState and the interrupt when the link thread leaves HAL_ETH_Stop_IT or HAL_ETH_Start_IT undisturbed. */
  function DriverAfter(s: State): Driver {
    match s.link
    case Stopping => if s.driver.Started? then Ready else s.driver
    case StopChecked | StopBusy | StopQuiet => Ready
    case Starting => if s.driver.Ready? then Started else s.driver
    case StartChecked | StartBusy | StartListening => Started
    case _ => s.driver
  }

  function IrqAfter(s: State): bool {
    match s.link
    case Stopping => s.irq && !s.driver.Started?
    case StopChecked | StopBusy => false
    case Starting => s.irq || s.driver.Ready?
    case StartChecked | StartBusy => true
    case _ => s.irq
  }

  function RoundEnd(s: State): State {
    if s.link.Rest? then s
    else s.(driver := DriverAfter(s), irq := IrqAfter(s), link := Rest, moved := true, linkUp := GoingUp(s.link),
            ifUp := if s.link.SettingLinkDown? || s.link.SettingLinkUp? then s.ifUp else GoingUp(s.link))
  }

  lemma DownTowardsEnd(s: State)
    requires GoingDown(s.link)
    ensures RoundEnd(Moved(s)) == RoundEnd(s)
  {
  }

  lemma UpTowardsEnd(s: State)
    requires GoingUp(s.link)
    ensures RoundEnd(Moved(s)) == RoundEnd(s)
  {
  }

  lemma FirstStep(s: State, a: Action, run: seq<Action>)
    requires Enabled(s, a) && Legal(Next(s, a), run)
    ensures Legal(s, [a] + run) && After(s, [a] + run) == After(Next(s, a), run)
  {
    assert ([a] + run)[1..] == run;
  }

  lemma {:induction false} RestOfRoundEnds(s: State)
    ensures Legal(s, RestOfRound(s)) && After(s, RestOfRound(s)) == RoundEnd(s)
    decreases StepsLeft(s.link)
  {
    if !s.link.Rest? {
      RestOfRoundEnds(Moved(s));
      FirstStep(s, LinkMoves, RestOfRound(Moved(s)));
      if GoingDown(s.link) {
        DownTowardsEnd(s);
      } else {
        UpTowardsEnd(s);
      }
    }
  }

  lemma OneRoundEnds(s: State, phy: int)
    requires s.link.Rest?
    ensures Legal(s, OneRound(s, phy)) && After(s, OneRound(s, phy)) == RoundEnd(Read(s, phy))
  {
    RestOfRoundEnds(Read(s, phy));
    FirstStep(s, LinkReads(phy), RestOfRound(Read(s, phy)));
  }

  /** The network interface and the variables of both tasks, for rounds that nothing disturbs. */
  class Interface {
    var linkUp: bool
    var ifUp: bool
    var driver: Driver
    var irq: bool
    var mac: Option<Mode>
    var known: Option<Mode>
    var last: Option<bool>
    ghost var moved: bool

    ghost function View(): State
      reads this
    {
      State(linkUp, ifUp, driver, irq, mac, Rest, known, if last.None? then BeforeInit else Idle, last, moved)
    }

    /** The end of low_level_init, and the interface that MX_LWIP_Init sets up in any case. */
    constructor (phy: int, struck: bool)
      ensures View() == Boot(phy, struck)
      ensures ifUp && (linkUp <==> phy > 1) && driver == if linkUp then Started else Ready
      ensures 2 <= phy <= 5 ==> mac == Some(Mode(phy <= 3, phy % 2 == 0))
      ensures phy > 5 ==> mac == Some(Mode(true, true))
    {
      known, last, moved, ifUp := None, None, false, true;
      if phy <= PHY_LINK_DOWN {
        linkUp, mac, driver, irq := false, None, Ready, false;
      } else {
        var mode := Mode(true, true);
        if Negotiated(phy).Some? {
          mode := Negotiated(phy).value;
        }
        linkUp, mac, driver, irq := true, Some(mode), Started, !struck;
      }
    }

    /** app_net_init, as far as it concerns the link. */
    method Init()
      requires last.None?
      modifies this`last
      ensures View() == Next(old(View()), PollInit)
    {
      last := Some(linkUp);
    }

    /** app_net_poll. */
    method Poll()
      requires last.Some?
      modifies this`last, this`ifUp
      ensures Legal(old(View()), OnePoll(old(View()))) && View() == After(old(View()), OnePoll(old(View())))
    {
      ghost var s := View();
      var linkNow := linkUp;
      if Some(linkNow) != last {
        last := Some(linkNow);
        if linkNow {
          ifUp := true;
        } else {
          ifUp := false;
        }
        RunOfOne(Next(s, PollReads), PollWrites);
        assert OnePoll(s)[1..] == [PollWrites];
      } else {
        RunOfOne(s, PollReads);
      }
    }

    /** HAL_ETH_Stop_IT. */
    method StopDriver()
      modifies this`driver, this`irq
      ensures driver == if old(driver).Started? then Ready else old(driver)
      ensures irq == (old(irq) && !old(driver).Started?)
    {
      if driver.Started? {
        driver := Busy;
        irq := false;
        driver := Ready;
      }
    }

    /** HAL_ETH_Start_IT. */
    method StartDriver()
      modifies this`driver, this`irq
      ensures driver == if old(driver).Ready? then Started else old(driver)
      ensures irq == (old(irq) || old(driver).Ready?)
    {
      if driver.Ready? {
        driver := Busy;
        irq := true;
        driver := Started;
      }
    }

    /** What the link thread does when the link is lost. */
    method SetDown()
      modifies this
      ensures View() == RoundEnd(old(View()).(link := Stopping))
    {
      StopDriver();
      ifUp := false;
      linkUp := false;
      moved := true;
    }

    /** What it does when there is a link with a mode. */
    method SetUp()
      modifies this
      ensures View() == RoundEnd(old(View()).(mac := if old(driver).Ready? then old(known) else old(mac), link := Starting))
    {
      if driver.Ready? {
        mac := known;
      }
      StartDriver();
      ifUp := true;
      linkUp := true;
      moved := true;
    }

    /** The body of the loop in ethernet_link_thread. */
    method LinkRound(phy: int)
      modifies this
      ensures old(linkUp) && phy <= 1 ==> !linkUp && !ifUp && driver != Started && known == old(known) && mac == old(mac)
      ensures !old(linkUp) && 2 <= phy <= 5 ==> linkUp && ifUp && known == Some(Mode(phy <= 3, phy % 2 == 0))
      ensures !old(linkUp) && 2 <= phy <= 5 && old(driver) == Ready ==> driver == Started && irq && mac == known
      ensures !old(linkUp) && phy > 5 && old(known).Some? ==> linkUp && ifUp && known == old(known)
      ensures (old(linkUp) <==> phy > 1) || (!old(linkUp) && phy > 5 && old(known).None?) ==> View() == old(View())
      ensures Legal(old(View()), OneRound(old(View()), phy))
      ensures View() == After(old(View()), OneRound(old(View()), phy))
    {
      OneRoundEnds(View(), phy);
      if linkUp && phy <= PHY_LINK_DOWN {
        SetDown();
      } else if !linkUp && phy > PHY_LINK_DOWN {
        if Negotiated(phy).Some? {
          known := Negotiated(phy);
        }
        if known.Some? {
          SetUp();
        }
      }
    }
  }

  /** Any steps whose readings of the PHY see no link. */
  predicate WithoutLink(run: seq<Action>) {
    forall i :: 0 <= i < |run| ==> !run[i].LinkReads? || run[i].phy <= 1
  }

  /**
   In the exceptional state nothing changes until there is a link: the interface stays up without one.
   */
  lemma {:induction false} UpWithoutLink(s: State, run: seq<Action>)
    requires Invariant(s) && AtRest(s) && BootedDown(s)
    requires Legal(s, run) && WithoutLink(run)
    ensures After(s, run) == s
    decreases |run|
  {
    if run != [] {
      assert !run[0].LinkReads? || run[0].phy <= PHY_LINK_DOWN;
      assert forall i :: 0 <= i < |run[1..]| ==> run[1..][i] == run[i + 1];
      InvariantKept(s, run[0]);
      UpWithoutLink(Next(s, run[0]), run[1..]);
    }
  }

  /**
   Between its rounds the link thread leaves the driver started exactly while the link is up, unless a fatal
   bus error has stopped the driver.
   */
  lemma DriverFollowsLink(s: State)
    requires Reachable(s) && s.link.Rest?
    ensures s.driver.Failed? || (s.driver.Started? <==> s.linkUp)
  {
    ReachableInvariant(s);
  }

  /** The link thread is inside HAL_ETH_Stop_IT or HAL_ETH_Start_IT, past the check of gState and before its last write. */
  predicate PastCheck(s: State) {
    s.link.StopChecked? || s.link.StopBusy? || s.link.StopQuiet? || s.link.StartChecked? || s.link.StartBusy? || s.link.StartListening?
  }

  ghost predicate FailedForever(s: State) {
    forall run :: Legal(s, run) ==> After(s, run).driver.Failed?
  }

  lemma {:induction false} FailedStays(s: State, run: seq<Action>)
    requires s.driver.Failed? && !PastCheck(s) && Legal(s, run)
    ensures After(s, run).driver.Failed?
    decreases |run|
  {
    if run != [] {
      FailedStays(Next(s, run[0]), run[1..]);
    }
  }

  /**
   A fatal bus error is final exactly if it does not strike between the check of gState and the last write
   to it in a call of HAL_ETH_Stop_IT or HAL_ETH_Start_IT: that write overwrites the error.
   */
  lemma BusErrorIsFinalExactly(s: State)
    requires Enabled(s, BusError)
    ensures FailedForever(Next(s, BusError)) <==> !PastCheck(s)
  {
    var t := Next(s, BusError);
    if PastCheck(s) {
      RestOfRoundEnds(t);
      assert !After(t, RestOfRound(t)).driver.Failed?;
    } else {
      forall run | Legal(t, run)
        ensures After(t, run).driver.Failed?
      {
        FailedStays(t, run);
      }
    }
  }

  lemma {:induction false} RunsJoin(s: State, run: seq<Action>, more: seq<Action>)
    requires Legal(s, run) && Legal(After(s, run), more)
    ensures Legal(s, run + more) && After(s, run + more) == After(After(s, run), more)
    decreases |run|
  {
    if run == [] {
      assert run + more == more;
    } else {
      RunsJoin(Next(s, run[0]), run[1..], more);
      assert (run + more)[1..] == run[1..] + more;
    }
  }

  /**
   After an error that is overwritten, the end of the round and then the loss and the return of the link leave
   the driver started with its interrupts enabled, as if there had been no error.
   */
  lemma OverwrittenErrorIsForgotten(s: State, down: int, up: int) returns (run: seq<Action>)
    requires Enabled(s, BusError) && PastCheck(s) && down <= PHY_LINK_DOWN && Negotiated(up).Some?
    ensures Legal(Next(s, BusError), run)
    ensures var t := After(Next(s, BusError), run); t.driver.Started? && t.irq && t.linkUp && t.link.Rest?
  {
    var t := Next(s, BusError);
    run := RestOfRound(t);
    RestOfRoundEnds(t);
    var u := RoundEnd(t);
    if u.linkUp {
      OneRoundEnds(u, down);
      RunsJoin(t, run, OneRound(u, down));
      run := run + OneRound(u, down);
      u := RoundEnd(Read(u, down));
    }
    OneRoundEnds(u, up);
    RunsJoin(t, run, OneRound(u, up));
    run := run + OneRound(u, up);
  }

  /**
   A link that is up without a finished negotiation is taken exactly if some earlier one was resolved, and
   with that one's mode.
   */
  lemma UnresolvedLinkIsTakenWithOldMode(s: State, phy: int)
    requires Reachable(s) && s.link.Rest? && !s.linkUp
    requires phy > PHY_LINK_DOWN && Negotiated(phy).None?
    ensures var t := Next(s, LinkReads(phy));
            && (t.link.Starting? <==> s.known.Some?)
            && (t.link.Starting? ==> t.mac == if s.driver.Failed? then s.mac else s.known)
            && (!t.link.Starting? ==> t == s)
  {
    ReachableInvariant(s);
  }

  // ------------------------------------------------------------------ the mode of the link

  /** The mode of the last reading that found the link resolved while the interface had none, or `before`. */
  function LastResolved(s: State, run: seq<Action>, before: Option<Mode>): Option<Mode>
    requires Legal(s, run)
    decreases |run|
  {
    if run == [] then before
    else
      var resolved := run[0].LinkReads? && !s.linkUp && 2 <= run[0].phy <= 5;
      LastResolved(Next(s, run[0]), run[1..], if resolved then Some(Mode(run[0].phy <= 3, run[0].phy % 2 == 0)) else before)
  }

  /** In every run, what the link thread remembers is the mode of the last resolved reading. */
  lemma {:induction false} KnownIsLastResolved(s: State, run: seq<Action>)
    requires Legal(s, run)
    ensures After(s, run).known == LastResolved(s, run, s.known)
    decreases |run|
  {
    if run != [] {
      KnownIsLastResolved(Next(s, run[0]), run[1..]);
    }
  }

  /**
   What the MAC is set to: the remembered mode, at each reading of a link that the interface does not have
   yet, provided that there is a mode and the driver is ready.
   */
  function LastApplied(s: State, run: seq<Action>, before: Option<Mode>): Option<Mode>
    requires Legal(s, run)
    decreases |run|
  {
    if run == [] then before
    else
      var t := Next(s, run[0]);
      var applied := run[0].LinkReads? && !s.linkUp && run[0].phy > 1 && s.driver == Ready && t.known.Some?;
      LastApplied(t, run[1..], if applied then t.known else before)
  }

  lemma {:induction false} MacIsLastApplied(s: State, run: seq<Action>)
    requires Legal(s, run)
    ensures After(s, run).mac == LastApplied(s, run, s.mac)
    decreases |run|
  {
    if run != [] {
      MacIsLastApplied(Next(s, run[0]), run[1..]);
    }
  }

  /** The reading and the six steps after it that take a link up. */
  function UpRun(phy: int): seq<Action> {
    [LinkReads(phy), LinkMoves, LinkMoves, LinkMoves, LinkMoves, LinkMoves, LinkMoves]
  }

  /** A resolved link is taken with its own mode: 100 Mbit/s for the states 2 and 3, full duplex for 2 and 4. */
  lemma ResolvedLinkIsTaken(s: State, phy: int)
    requires Reachable(s) && s.link.Rest? && !s.linkUp && s.driver == Ready && 2 <= phy <= 5
    ensures Legal(s, UpRun(phy))
    ensures var mode := Some(Mode(phy <= 3, phy % 2 == 0));
            After(s, UpRun(phy)) == s.(linkUp := true, ifUp := true, driver := Started, irq := true,
                                       mac := mode, known := mode, moved := true)
  {
    OneRoundEnds(s, phy);
    UpRunIsRound(Read(s, phy));
    assert [LinkReads(phy)] + SixMoves() == UpRun(phy);
  }

  function SixMoves(): seq<Action> {
    [LinkMoves, LinkMoves, LinkMoves, LinkMoves, LinkMoves, LinkMoves]
  }

  lemma UpRunIsRound(s: State)
    requires s.link.Starting? && s.driver == Ready
    ensures RestOfRound(s) == SixMoves()
  {
    var s1 := Moved(s);
    var s2 := Moved(s1);
    var s3 := Moved(s2);
    var s4 := Moved(s3);
    var s5 := Moved(s4);
    assert RestOfRound(Moved(s5)) == [];
    assert RestOfRound(s5) == [LinkMoves];
    assert RestOfRound(s4) == [LinkMoves, LinkMoves];
    assert RestOfRound(s3) == [LinkMoves, LinkMoves, LinkMoves];
    assert RestOfRound(s2) == [LinkMoves, LinkMoves, LinkMoves, LinkMoves];
    assert RestOfRound(s1) == [LinkMoves, LinkMoves, LinkMoves, LinkMoves, LinkMoves];
  }

  lemma {:induction false} AppendStep(s: State, run: seq<Action>, a: Action)
    requires Legal(s, run) && Enabled(After(s, run), a)
    ensures Legal(s, run + [a]) && After(s, run + [a]) == Next(After(s, run), a)
    decreases |run|
  {
    if run == [] {
      assert (run + [a])[1..] == [];
    } else {
      AppendStep(Next(s, run[0]), run[1..], a);
      assert (run + [a])[1..] == run[1..] + [a];
    }
  }

  lemma Onward(s: State, a: Action) returns (t: State)
    requires Reachable(s) && Enabled(s, a)
    ensures t == Next(s, a) && Reachable(t)
  {
    t := Next(s, a);
    var phy, struck, run :| Legal(Boot(phy, struck), run) && After(Boot(phy, struck), run) == s;
    AppendStep(Boot(phy, struck), run, a);
  }

  lemma BootReachable(phy: int) returns (s: State)
    ensures s == Boot(phy, false) && Reachable(s)
  {
    s := Boot(phy, false);
    assert Legal(s, []) && After(s, []) == s;
  }

  /** One undisturbed round, as a part of a run. */
  lemma RoundOnward(s: State, phy: int) returns (t: State)
    requires Reachable(s) && s.link.Rest?
    ensures t == RoundEnd(Read(s, phy)) && Reachable(t)
  {
    OneRoundEnds(s, phy);
    t := After(s, OneRound(s, phy));
    var found, struck, run :| Legal(Boot(found, struck), run) && After(Boot(found, struck), run) == s;
    RunsJoin(Boot(found, struck), run, OneRound(s, phy));
  }

  /** The exception and the stale mode both happen: without a link at first, then 10 Mbit/s, then an unresolved link. */
  lemma BothHappen() returns (s: State, u: State)
    ensures Reachable(s) && AtRest(s) && BootedDown(s)
    ensures Reachable(u) && AtRest(u) && !u.linkUp
    ensures var t := Next(u, LinkReads(PHY_AUTONEGO_NOTDONE));
            t.link.Starting? && t.mac == Some(Mode(false, false))
  {
    s := BootReachable(1);
    s := Onward(s, PollInit);
    u := RoundOnward(s, PHY_10M_HALF);
    u := RoundOnward(u, PHY_LINK_DOWN);
  }

  /** An error can strike where HAL_ETH_Stop_IT overwrites it. */
  lemma ErrorDuringStop() returns (s: State)
    ensures Reachable(s) && Enabled(s, BusError) && s.link.StopBusy?
  {
    s := BootReachable(2);
    s := Onward(s, LinkReads(PHY_LINK_DOWN));
    s := Onward(s, LinkMoves);
    s := Onward(s, LinkMoves);
  }

  /** And where HAL_ETH_Start_IT does. */
  lemma ErrorDuringStart() returns (s: State)
    ensures Reachable(s) && Enabled(s, BusError) && s.link.StartListening?
  {
    s := BootReachable(1);
    s := Onward(s, LinkReads(PHY_100M_FULL));
    s := Onward(s, LinkMoves);
    s := Onward(s, LinkMoves);
    s := Onward(s, LinkMoves);
  }
}
