/**
 * The client's life cycle around the cache: the running flag that `Run` sets
 * and `Shutdown` clears, the registration retry loop, the promotion of the
 * instance to UP, and the heartbeat's pacing. Server calls are oracle
 * answers; each loop runs over a finite sequence of them, and its sleeps are
 * summed in seconds instead of being taken.
 */
module Lifecycle {
  import opened Wrappers
  import opened Transport
  import opened Registry
  import opened Cache

  /** Seconds every retry loop sleeps after a failed server call. */
  const DefaultSleepIntervals: nat := 3

  // ---------------------------------------------------------------------------
  // Running flag
  // ---------------------------------------------------------------------------

  /** `Run`, as far as the state goes: the client is marked running and nothing else changes. */
  function Run(s: ClientState): (t: ClientState)
    ensures t.running
    ensures t.counter == s.counter && t.registryApps == s.registryApps
    ensures t.activeInstances == s.activeInstances && t.activeIpPorts == s.activeIpPorts
  {
    s.(running := true)
  }

  /** What `Shutdown` leaves behind, and whether it asked the server to de-register the instance. */
  datatype ShutdownStep = ShutdownStep(state: ClientState, deregisterCalled: bool)

  /**
   * `Shutdown`: the server is asked to de-register exactly when the client is
   * running and configured to de-register on shutdown; the running flag is
   * cleared only when the server accepts, and nothing else changes.
   */
  function Shutdown(s: ClientState, cfg: Config, ack: Ack): (r: ShutdownStep)
    ensures r.deregisterCalled <==> s.running && cfg.shouldUnregisterOnShutdown
    ensures r.state.running <==> s.running && !(r.deregisterCalled && ack.Accepted?)
    ensures r.state == s.(running := r.state.running)
  {
    if !s.running || !cfg.shouldUnregisterOnShutdown then ShutdownStep(s, false)
    else
      match ack
      case Accepted => ShutdownStep(s.(running := false), true)
      case Rejected(_) => ShutdownStep(s, true)
  }

  /** After a shutdown the server accepted, a second shutdown calls nobody and changes nothing. */
  lemma ShutdownTwiceDeregistersOnce(s: ClientState, cfg: Config, first: Ack, second: Ack)
    requires Shutdown(s, cfg, first).deregisterCalled && first.Accepted?
    ensures !Shutdown(Shutdown(s, cfg, first).state, cfg, second).deregisterCalled
    ensures Shutdown(Shutdown(s, cfg, first).state, cfg, second).state == Shutdown(s, cfg, first).state
  {
  }

  /** After a shutdown the server rejected, the client is still running and a second shutdown tries again. */
  lemma RejectedShutdownIsRetried(s: ClientState, cfg: Config, first: Ack, second: Ack)
    requires Shutdown(s, cfg, first).deregisterCalled && first.Rejected?
    ensures Shutdown(s, cfg, first).state == s
    ensures Shutdown(Shutdown(s, cfg, first).state, cfg, second).deregisterCalled
  {
  }

  /** A client that was started de-registers on shutdown exactly when so configured. */
  lemma RunThenShutdown(s: ClientState, cfg: Config, ack: Ack)
    ensures Shutdown(Run(s), cfg, ack).deregisterCalled <==> cfg.shouldUnregisterOnShutdown
    ensures !Shutdown(Run(s), cfg, ack).state.running <==> cfg.shouldUnregisterOnShutdown && ack.Accepted?
  {
  }

  // ---------------------------------------------------------------------------
  // Registration
  // ---------------------------------------------------------------------------

  /**
   * How the registration loop ended: self-registration is switched off, there
   * is no instance to register, the server accepted attempt `attempt`, or every
   * attempt given was rejected (the loop would go on retrying). The seconds
   * slept before the end are recorded.
   */
  datatype Registration =
    | SelfRegistrationDisabled
    | MissingInstance
    | Registered(attempt: nat, sleptSecs: nat)
    | StillRetrying(sleptSecs: nat)

  /**
   * `registerWithEureka`: the answers to successive register calls are
   * `attempts`. Registration succeeds at the first accepted attempt, after
   * sleeping the retry interval once for every rejected attempt before it.
   */
  method RegisterWithEureka(cfg: Config, hasInstance: bool, attempts: seq<Ack>) returns (r: Registration)
    ensures !cfg.registerWithEureka ==> r == SelfRegistrationDisabled
    ensures cfg.registerWithEureka && !hasInstance ==> r == MissingInstance
    ensures cfg.registerWithEureka && hasInstance ==> r.Registered? || r.StillRetrying?
    ensures r.Registered? ==>
      && r.attempt < |attempts| && attempts[r.attempt].Accepted?
      && (forall j :: 0 <= j < r.attempt ==> attempts[j].Rejected?)
      && r.sleptSecs == DefaultSleepIntervals * r.attempt
    ensures r.StillRetrying? ==>
      && (forall j :: 0 <= j < |attempts| ==> attempts[j].Rejected?)
      && r.sleptSecs == DefaultSleepIntervals * |attempts|
  {
    if !cfg.registerWithEureka {
      return SelfRegistrationDisabled;
    }
    // The instance is checked at the top of every round; it never changes, so
    // the first check decides.
    if !hasInstance {
      return MissingInstance;
    }
    var i := 0;
    var slept := 0;
    while i < |attempts|
      invariant 0 <= i <= |attempts|
      invariant forall j :: 0 <= j < i ==> attempts[j].Rejected?
      invariant slept == DefaultSleepIntervals * i
    {
      if attempts[i].Accepted? {
        return Registered(i, slept);
      }
      slept := slept + DefaultSleepIntervals;
      i := i + 1;
    }
    return StillRetrying(slept);
  }

  // ---------------------------------------------------------------------------
  // Promotion to UP
  // ---------------------------------------------------------------------------

  /**
   * `updateInstanceStatus`: ask the server to set the instance UP. It never
   * reports an error: a missing instance or a rejected call is `false`.
   */
  function UpdateInstanceStatus(hasInstance: bool, ack: Ack): (r: Result<bool, ClientError>)
    ensures r.Ok?
    ensures r.value <==> hasInstance && ack.Accepted?
  {
    if !hasInstance then Ok(false)
    else if ack.Rejected? then Ok(false)
    else Ok(true)
  }

  /**
   * The port `serverIsStarted` probes: the secure port when its flag reads
   * "true", the plain port otherwise. An instance probed on its secure port
   * never lists an https endpoint, because the derivation wants that flag to
   * read "false".
   */
  function ProbedPort(inst: Instance): (port: int)
    ensures inst.securePort.enabled == "true" ==> port == inst.securePort.port && !ListsHttps(inst)
    ensures inst.securePort.enabled != "true" ==> port == inst.port.port
  {
    if "true" == inst.securePort.enabled then inst.securePort.port else inst.port.port
  }

  /** One round of the promotion loop: whether the probed port was in use, and the server's answer. */
  datatype PromotionRound = PromotionRound(portInUse: bool, ack: Ack)

  /**
   * Whether a round promotes the instance. The guard
   * `enabledOnInit || (!enabledOnInit && started)` reduces to
   * `enabledOnInit || started`: with the instance enabled on start-up the
   * probe is ignored, otherwise the port must be in use.
   */
  function Promotes(enabledOnInit: bool, hasInstance: bool, round: PromotionRound): (updated: bool)
    ensures updated <==> (enabledOnInit || round.portInUse) && hasInstance && round.ack.Accepted?
  {
    if enabledOnInit || (!enabledOnInit && round.portInUse) then UpdateInstanceStatus(hasInstance, round.ack).value
    else false
  }

  /**
   * The promotion loop over `rounds`: it stops at the first round that
   * promotes the instance, having slept the retry interval after each round
   * before it; `None` when no round given promotes it.
   */
  method PromoteToUp(enabledOnInit: bool, hasInstance: bool, rounds: seq<PromotionRound>)
    returns (at: Option<nat>, sleptSecs: nat)
    ensures at.Some? ==>
      && at.value < |rounds| && Promotes(enabledOnInit, hasInstance, rounds[at.value])
      && (forall j :: 0 <= j < at.value ==> !Promotes(enabledOnInit, hasInstance, rounds[j]))
      && sleptSecs == DefaultSleepIntervals * at.value
    ensures at.None? ==>
      && (forall j :: 0 <= j < |rounds| ==> !Promotes(enabledOnInit, hasInstance, rounds[j]))
      && sleptSecs == DefaultSleepIntervals * |rounds|
  {
    var i := 0;
    sleptSecs := 0;
    while i < |rounds|
      invariant 0 <= i <= |rounds|
      invariant forall j :: 0 <= j < i ==> !Promotes(enabledOnInit, hasInstance, rounds[j])
      invariant sleptSecs == DefaultSleepIntervals * i
    {
      if Promotes(enabledOnInit, hasInstance, rounds[i]) {
        return Some(i), sleptSecs;
      }
      sleptSecs := sleptSecs + DefaultSleepIntervals;
      i := i + 1;
    }
    at := None;
  }

  /**
   * `updateInstanceStatus` on its own: without an instance no round promotes,
   * whatever the server says. In the client this case does not arise: the
   * promotion loop starts only after registration succeeded, which needs an
   * instance (client.go:303-305), and with `enabledOnInit` false the Go code
   * would already panic probing the nil instance's port (client.go:347).
   */
  lemma NoInstanceNeverPromotes(enabledOnInit: bool, round: PromotionRound)
    ensures !Promotes(enabledOnInit, false, round)
  {
  }

  // ---------------------------------------------------------------------------
  // Heartbeat
  // ---------------------------------------------------------------------------

  /**
   * The pause after one heartbeat: the lease renewal interval after an
   * accepted heartbeat (a non-positive interval does not sleep at all), the
   * retry interval after a rejected one.
   */
  function HeartbeatPause(ack: Ack, renewalSecs: int): nat
  {
    if ack.Rejected? then DefaultSleepIntervals
    else if renewalSecs > 0 then renewalSecs
    else 0
  }

  /** Seconds slept over a run of heartbeats with the given answers. */
  function HeartbeatElapsed(acks: seq<Ack>, renewalSecs: int): nat
  {
    if |acks| == 0 then 0
    else HeartbeatElapsed(acks[..|acks| - 1], renewalSecs) + HeartbeatPause(acks[|acks| - 1], renewalSecs)
  }

  /** Number of rejected answers. */
  function CountRejected(acks: seq<Ack>): (n: nat)
    ensures n <= |acks|
  {
    if |acks| == 0 then 0
    else CountRejected(acks[..|acks| - 1]) + (if acks[|acks| - 1].Rejected? then 1 else 0)
  }

  /**
   * Over any run of heartbeats, every rejected one costs the retry interval
   * and every accepted one the renewal interval (when positive).
   */
  lemma {:induction false} HeartbeatElapsedCounts(acks: seq<Ack>, renewalSecs: int)
    ensures HeartbeatElapsed(acks, renewalSecs) ==
      DefaultSleepIntervals * CountRejected(acks)
      + (if renewalSecs > 0 then renewalSecs else 0) * (|acks| - CountRejected(acks))
    decreases |acks|
  {
    if |acks| > 0 {
      HeartbeatElapsedCounts(acks[..|acks| - 1], renewalSecs);
    }
  }
}
