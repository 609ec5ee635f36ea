/** The idle-session timer of the home page.

    The page keeps three timer handles: a warning timeout, a logout timeout
    and, once the warning has shown, a one-second countdown interval. Time is
    a logical clock in whole milliseconds. A pending timeout is its deadline;
    the running interval is the number of seconds its callback still counts
    from and the time of its next tick. The browser is the environment: it
    calls a timer callback only when that timer is the next thing due
    (`DueNext`), and it delivers activity events only once the listeners are
    installed. Navigating to the sign-out page is counted in `signouts`. */
module IdleTimer {
  import opened Wrappers

  const IdleWarningTime: int := 28 * 60 * 1000
  const IdleLogoutTime: int := 30 * 60 * 1000
  const WarningCountdown: int := 30
  const TickInterval: int := 1000

  /** The countdown interval: the `seconds` its callback will decrement next,
      and when that callback runs. */
  datatype Countdown = Countdown(seconds: int, nextTick: int)

  /** Everything the timer code reads or writes. */
  datatype Session = Session(
    clock: int,                   // the current time, in milliseconds
    warningAt: Option<int>,       // pending warning timeout (`idleWarningTimer`)
    logoutAt: Option<int>,        // pending logout timeout (`idleTimer`)
    countdown: Option<Countdown>, // running interval (`window.currentCountdownInterval`)
    modalShown: bool,             // the timeout warning modal is displayed
    display: Option<int>,         // number last written to the countdown element
    signouts: nat,                // navigations to /signout so far
    listening: bool,              // activity listeners are installed
    hasModal: bool,               // the page has the warning modal element
    hasDisplay: bool)             // the page has the countdown element

  /** The time the running countdown will log out at. */
  function LastTick(c: Countdown): int {
    c.nextTick + (c.seconds - 1) * TickInterval
  }

  /** A page that has just loaded, before the timer code has run. */
  function Initial(now: int, hasModal: bool, hasDisplay: bool): (s: Session)
    ensures WellFormed(s)
    ensures s.warningAt.None? && s.logoutAt.None? && s.countdown.None? && s.signouts == 0
  {
    Session(now, None, None, None, false, None, 0, false, hasModal, hasDisplay)
  }

  /** The invariant the timer code keeps: a pending warning is exactly two
      minutes ahead of a pending logout; nothing pending is overdue; a running
      countdown is between ticks and finishes before any pending timeout. */
  predicate WellFormed(s: Session) {
    && (s.warningAt.Some? ==>
          s.logoutAt == Some(s.warningAt.value + (IdleLogoutTime - IdleWarningTime))
          && s.clock <= s.warningAt.value)
    && (s.logoutAt.Some? ==> s.clock <= s.logoutAt.value)
    && (s.countdown.Some? ==>
          var c := s.countdown.value;
          && 0 < c.seconds <= WarningCountdown
          && s.clock <= c.nextTick <= s.clock + TickInterval
          && (s.warningAt.Some? ==> LastTick(c) < s.warningAt.value)
          && (s.logoutAt.Some? ==> LastTick(c) < s.logoutAt.value))
  }

  /** Time `t` is not in the past and no pending timer is due before it. */
  predicate DueNext(s: Session, t: int) {
    && s.clock <= t
    && (s.warningAt.Some? ==> t <= s.warningAt.value)
    && (s.logoutAt.Some? ==> t <= s.logoutAt.value)
    && (s.countdown.Some? ==> t <= s.countdown.value.nextTick)
  }

  /** `resetIdleTimer`: cancel both timeouts, schedule the warning 28 minutes
      and the logout 30 minutes from now. A running countdown is left alone. */
  function Reset(s: Session): (r: Session)
    requires WellFormed(s)
    ensures WellFormed(r)
    ensures r.warningAt == Some(s.clock + IdleWarningTime)
    ensures r.logoutAt == Some(s.clock + IdleLogoutTime)
    ensures r.logoutAt.value - r.warningAt.value == 2 * 60 * 1000
    ensures r.countdown == s.countdown && r.modalShown == s.modalShown
    ensures r.(warningAt := s.warningAt, logoutAt := s.logoutAt) == s
  {
    s.(warningAt := Some(s.clock + IdleWarningTime), logoutAt := Some(s.clock + IdleLogoutTime))
  }

  /** `initializeIdleTimer`: only a page carrying the signed-in marker arms
      the timeouts and installs the activity listeners. */
  function Arm(s: Session, isLoggedIn: bool): (r: Session)
    requires WellFormed(s)
    ensures WellFormed(r)
    ensures !isLoggedIn ==> r == s
    ensures isLoggedIn ==> r.listening && r.warningAt == Some(s.clock + IdleWarningTime)
                           && r.logoutAt == Some(s.clock + IdleLogoutTime)
  {
    if !isLoggedIn then s else Reset(s).(listening := true)
  }

  /** An activity event at time `t` runs `resetIdleTimer`. */
  function Activity(s: Session, t: int): (r: Session)
    requires WellFormed(s) && s.listening && DueNext(s, t)
    ensures WellFormed(r) && r.clock == t
    ensures r.warningAt == Some(t + IdleWarningTime) && r.logoutAt == Some(t + IdleLogoutTime)
    ensures r.countdown == s.countdown && r.modalShown == s.modalShown
    ensures r.signouts == s.signouts
  {
    Reset(s.(clock := t))
  }

  /** `autoLogout`: navigate to the sign-out page. */
  function SignOut(s: Session): (r: Session)
    ensures r.signouts == s.signouts + 1
    ensures r.(signouts := s.signouts) == s
  {
    s.(signouts := s.signouts + 1)
  }

  /** `startCountdown`: a fresh 30-second interval whose first tick is a
      second away. */
  function CountdownStarted(s: Session): (r: Session)
    ensures r.countdown == Some(Countdown(WarningCountdown, s.clock + TickInterval))
    ensures r.(countdown := s.countdown) == s
  {
    s.(countdown := Some(Countdown(WarningCountdown, s.clock + TickInterval)))
  }

  /** `showIdleWarning`: with the modal on the page, show it and start the
      countdown; without it, do nothing. */
  function ShowIdleWarning(s: Session): (r: Session)
    ensures s.hasModal ==> r.modalShown && r.countdown == Some(Countdown(WarningCountdown, s.clock + TickInterval))
    ensures s.hasModal ==> r.(modalShown := s.modalShown, countdown := s.countdown) == s
    ensures !s.hasModal ==> r == s
  {
    if s.hasModal then CountdownStarted(s.(modalShown := true)) else s
  }

  /** The warning timeout fires at its deadline. No countdown is running at
      that moment, and the logout timeout is still two minutes away. */
  function WarningFires(s: Session): (r: Session)
    requires WellFormed(s) && s.warningAt.Some? && DueNext(s, s.warningAt.value)
    ensures WellFormed(r) && r.clock == s.warningAt.value && r.warningAt.None?
    ensures r.logoutAt == Some(r.clock + (IdleLogoutTime - IdleWarningTime))
    ensures s.hasModal ==> r.modalShown && r.countdown == Some(Countdown(WarningCountdown, r.clock + TickInterval))
    ensures !s.hasModal ==> r.countdown.None? && r.modalShown == s.modalShown
    ensures r.signouts == s.signouts
    ensures r.(clock := s.clock, warningAt := s.warningAt, modalShown := s.modalShown, countdown := s.countdown) == s
  {
    ShowIdleWarning(s.(clock := s.warningAt.value, warningAt := None))
  }

  /** One run of the countdown callback: decrement, show the number, and at
      zero clear the interval and log out. */
  function Tick(s: Session): (r: Session)
    requires WellFormed(s) && s.countdown.Some?
    ensures WellFormed(r) && r.clock == s.countdown.value.nextTick
    ensures var n := s.countdown.value.seconds - 1;
            && (n > 0 ==> r.countdown == Some(Countdown(n, r.clock + TickInterval)) && r.signouts == s.signouts)
            && (n <= 0 ==> r.countdown.None? && r.signouts == s.signouts + 1)
            && r.display == (if s.hasDisplay then Some(n) else s.display)
    ensures r.warningAt == s.warningAt && r.logoutAt == s.logoutAt
    ensures r.(clock := s.clock, countdown := s.countdown, display := s.display, signouts := s.signouts) == s
  {
    var c := s.countdown.value;
    var n := c.seconds - 1;
    var shown := if s.hasDisplay then Some(n) else s.display;
    var r := s.(clock := c.nextTick, countdown := Some(Countdown(n, c.nextTick + TickInterval)), display := shown);
    if n <= 0 then SignOut(r.(countdown := None)) else r
  }

  /** The logout timeout fires at its deadline. */
  function LogoutFires(s: Session): (r: Session)
    requires WellFormed(s) && s.logoutAt.Some? && DueNext(s, s.logoutAt.value)
    ensures WellFormed(r) && r.clock == s.logoutAt.value && r.logoutAt.None?
    ensures r.signouts == s.signouts + 1
    ensures r.(clock := s.clock, logoutAt := s.logoutAt, signouts := s.signouts) == s
  {
    SignOut(s.(clock := s.logoutAt.value, logoutAt := None))
  }

  /** `stayLoggedIn` at time `t`: hide the modal, clear the countdown
      interval, and reset the timeouts. */
  function KeepSession(s: Session, t: int): (r: Session)
    requires WellFormed(s) && DueNext(s, t)
    ensures WellFormed(r) && r.clock == t
    ensures !r.modalShown && r.countdown.None?
    ensures r.warningAt == Some(t + IdleWarningTime) && r.logoutAt == Some(t + IdleLogoutTime)
    ensures r.signouts == s.signouts
    ensures r.(clock := s.clock, modalShown := s.modalShown, countdown := s.countdown,
               warningAt := s.warningAt, logoutAt := s.logoutAt) == s
  {
    Reset(s.(clock := t, modalShown := false, countdown := None))
  }

  // ---------------------------------------------------------------
  // Properties of runs
  // ---------------------------------------------------------------

  /** While the countdown runs, its next tick comes before every pending
      timeout: only a user event can come between two ticks. */
  lemma CountdownTickIsNext(s: Session)
    requires WellFormed(s) && s.countdown.Some?
    ensures DueNext(s, s.countdown.value.nextTick)
  {
    var c := s.countdown.value;
    assert c.nextTick <= LastTick(c);
  }

  /** The warning timeout never fires while a countdown is running, so a
      second interval is never started over a first one. */
  lemma NoOverlappingCountdowns(s: Session)
    requires WellFormed(s) && s.warningAt.Some? && DueNext(s, s.warningAt.value)
    ensures s.countdown.None?
  {
  }

  /** The logout timeout never fires while the countdown runs or the warning
      is still pending. */
  lemma LogoutTimeoutFiresAlone(s: Session)
    requires WellFormed(s) && s.logoutAt.Some? && DueNext(s, s.logoutAt.value)
    ensures s.countdown.None? && s.warningAt.None?
  {
  }

  /** `k` countdown ticks with no user event in between (fewer if the
      countdown stops first). */
  function Ticks(s: Session, k: nat): (r: Session)
    requires WellFormed(s)
    ensures WellFormed(r)
    decreases k
  {
    if k == 0 || s.countdown.None? then s else Ticks(Tick(s), k - 1)
  }

  /** A countdown at `n` seconds runs for exactly `n` more ticks: after
      `k < n` of them it shows `n - k` and nobody has been signed out; the
      `n`-th clears the interval and signs out once. The timeouts are not
      touched meanwhile. */
  lemma {:induction false} CountdownRunsOut(s: Session, k: nat)
    requires WellFormed(s) && s.countdown.Some? && k <= s.countdown.value.seconds
    ensures var c := s.countdown.value;
            var r := Ticks(s, k);
            && r.countdown == (if k == c.seconds then None
                               else Some(Countdown(c.seconds - k, c.nextTick + k * TickInterval)))
            && r.signouts == (if k == c.seconds then s.signouts + 1 else s.signouts)
            && (k > 0 ==> r.clock == c.nextTick + (k - 1) * TickInterval)
            && (k > 0 && s.hasDisplay ==> r.display == Some(c.seconds - k))
            && r.warningAt == s.warningAt && r.logoutAt == s.logoutAt
    decreases k
  {
    if k > 0 {
      var t := Tick(s);
      var c := s.countdown.value;
      if c.seconds == 1 {
        assert Ticks(s, k) == t;
      } else {
        CountdownRunsOut(t, k - 1);
      }
    }
  }

  /** Once the warning has shown and the user does nothing, the 30th tick
      signs out, 30 seconds after the warning and 90 seconds before the
      logout timeout would have; no earlier tick signs out. */
  lemma WarningThenSilenceSignsOut(s: Session)
    requires WellFormed(s) && s.warningAt.Some? && DueNext(s, s.warningAt.value) && s.hasModal
    ensures var w := WarningFires(s);
            var r := Ticks(w, WarningCountdown as nat);
            && r.signouts == s.signouts + 1 && r.countdown.None?
            && r.clock == s.warningAt.value + WarningCountdown * TickInterval
            && r.logoutAt == Some(s.warningAt.value + (IdleLogoutTime - IdleWarningTime))
            && r.clock < r.logoutAt.value
    ensures forall k: nat :: k < WarningCountdown ==> Ticks(WarningFires(s), k).signouts == s.signouts
  {
    var w := WarningFires(s);
    CountdownRunsOut(w, WarningCountdown as nat);
    forall k: nat | k < WarningCountdown
      ensures Ticks(w, k).signouts == s.signouts
    {
      CountdownRunsOut(w, k);
    }
  }

  /** With no modal on the page the warning does nothing visible, and the
      logout timeout is what signs out, 30 minutes after the last reset. */
  lemma WarningWithoutModalLeavesLogoutTimeout(s: Session)
    requires WellFormed(s) && s.warningAt.Some? && DueNext(s, s.warningAt.value) && !s.hasModal
    ensures var w := WarningFires(s);
            && w.countdown.None?
            && w.logoutAt.Some? && DueNext(w, w.logoutAt.value)
            && LogoutFires(w).signouts == s.signouts + 1
            && LogoutFires(w).clock == s.warningAt.value + (IdleLogoutTime - IdleWarningTime)
  {
    NoOverlappingCountdowns(s);
  }

  /** Activity while the warning is up re-arms the timeouts but leaves the
      countdown running, so the countdown still signs out on schedule. */
  lemma ActivityDoesNotStopCountdown(s: Session, t: int)
    requires WellFormed(s) && s.listening && DueNext(s, t) && s.countdown.Some?
    ensures var a := Activity(s, t);
            && a.countdown == s.countdown
            && Ticks(a, s.countdown.value.seconds as nat).signouts == s.signouts + 1
  {
    var a := Activity(s, t);
    CountdownRunsOut(a, s.countdown.value.seconds as nat);
  }

  /** The object form of the timer: module-level handles that the callbacks
      overwrite. Each method is the corresponding step above. */
  class IdleSession {
    var clock: int
    var warningAt: Option<int>
    var logoutAt: Option<int>
    var countdown: Option<Countdown>
    var modalShown: bool
    var display: Option<int>
    var signouts: nat
    var listening: bool
    const hasModal: bool
    const hasDisplay: bool

    ghost function Snapshot(): Session
      reads this
    {
      Session(clock, warningAt, logoutAt, countdown, modalShown, display, signouts,
              listening, hasModal, hasDisplay)
    }

    ghost predicate Valid()
      reads this
    {
      WellFormed(Snapshot())
    }

    constructor (now: int, hasModal: bool, hasDisplay: bool)
      ensures Valid() && Snapshot() == Initial(now, hasModal, hasDisplay)
    {
      clock := now;
      warningAt, logoutAt, countdown := None, None, None;
      modalShown, display, signouts, listening := false, None, 0, false;
      this.hasModal, this.hasDisplay := hasModal, hasDisplay;
    }

    method InitializeIdleTimer(isLoggedIn: bool)
      requires Valid()
      modifies this
      ensures Valid() && Snapshot() == Arm(old(Snapshot()), isLoggedIn)
    {
      if !isLoggedIn {
        return;
      }
      ResetIdleTimer();
      listening := true;
    }

    method ResetIdleTimer()
      requires Valid()
      modifies this
      ensures Valid() && Snapshot() == Reset(old(Snapshot()))
    {
      warningAt, logoutAt := None, None;
      warningAt := Some(clock + IdleWarningTime);
      logoutAt := Some(clock + IdleLogoutTime);
    }

    /** An activity event delivered at time `t`. */
    method OnActivity(t: int)
      requires Valid() && listening && DueNext(Snapshot(), t)
      modifies this
      ensures Valid() && Snapshot() == Activity(old(Snapshot()), t)
    {
      clock := t;
      ResetIdleTimer();
    }

    /** The warning timeout's callback, run at its deadline. */
    method ShowIdleWarning()
      requires Valid() && warningAt.Some? && DueNext(Snapshot(), warningAt.value)
      modifies this
      ensures Valid() && Snapshot() == WarningFires(old(Snapshot()))
    {
      clock, warningAt := warningAt.value, None;
      if hasModal {
        modalShown := true;
        StartCountdown();
      }
    }

    method StartCountdown()
      modifies this
      ensures Snapshot() == CountdownStarted(old(Snapshot()))
    {
      countdown := Some(Countdown(WarningCountdown, clock + TickInterval));
    }

    /** The countdown interval's callback, run at its next tick. */
    method CountdownTick()
      requires Valid() && countdown.Some?
      modifies this
      ensures Valid() && Snapshot() == Tick(old(Snapshot()))
    {
      var c := countdown.value;
      clock := c.nextTick;
      var seconds := c.seconds - 1;
      countdown := Some(Countdown(seconds, c.nextTick + TickInterval));
      if hasDisplay {
        display := Some(seconds);
      }
      if seconds <= 0 {
        countdown := None;
        AutoLogout();
      }
    }

    method AutoLogout()
      modifies this
      ensures Snapshot() == SignOut(old(Snapshot()))
    {
      signouts := signouts + 1;
    }

    /** The logout timeout's callback, run at its deadline. */
    method LogoutTimeoutFires()
      requires Valid() && logoutAt.Some? && DueNext(Snapshot(), logoutAt.value)
      modifies this
      ensures Valid() && Snapshot() == LogoutFires(old(Snapshot()))
    {
      clock, logoutAt := logoutAt.value, None;
      AutoLogout();
    }

    /** The "stay logged in" action, taken at time `t`. */
    method StayLoggedIn(t: int)
      requires Valid() && DueNext(Snapshot(), t)
      modifies this
      ensures Valid() && Snapshot() == KeepSession(old(Snapshot()), t)
    {
      clock := t;
      modalShown := false;
      countdown := None;
      ResetIdleTimer();
    }
  }
}
