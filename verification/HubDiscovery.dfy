/**
 * Hub discovery and heartbeats of a service (xplcore.c): a timer that is
 * counted down every second, and a search for the hub that ends when the
 * service hears its own heartbeat or has tried often enough.
 */
module HubDiscovery {
  import opened Common
  import opened Numerals
  import opened XplTag
  import opened XplMessage
  import opened MessageParser
  import opened MessageRoundTrip
  import opened ParsedMessages

  const HEARTBEAT_INTERVAL: nat := 300
  const DISCOVERY_INTERVAL: nat := 3
  const NO_ECHO_INTERVAL: nat := 60
  const MAX_TRIES: nat := 40

  datatype Discovery = Unconfirmed | NoEcho | Confirmed

  /** beats counts the heartbeats sent. crashed tells that the process has ended on a missing item. */
  datatype Service = Service(
    enabled: bool, interval: nat, timer: nat, tries: nat, state: Discovery, beats: nat, crashed: bool)

  const NEW_SERVICE := Service(false, HEARTBEAT_INTERVAL, 0, 0, Unconfirmed, 0, false)

  datatype Event =
    | Tick(sendOk: bool)
    | Receive(m: Message)
    | SetState(on: bool, sendOk: bool)

  // ----- what events do -----

  predicate IsHeartbeat(m: Message) {
    m.schemaClass == "hbeat" && m.schemaType == "app"
  }

  predicate IsRequest(m: Message) {
    m.schemaClass == "hbeat" && m.schemaType == "request"
  }

  /** The command of a heartbeat request is read without a check that there is one; without it the process ends. */
  predicate Readable(m: Message) {
    IsRequest(m) ==> NamedValue(m.items, "command").Some?
  }

  function Beat(s: Service, sendOk: bool): Service {
    if !sendOk then s
    else
      match s.state
      case Unconfirmed =>
        if s.tries + 1 >= MAX_TRIES
        then s.(tries := s.tries + 1, state := NoEcho, timer := NO_ECHO_INTERVAL, beats := s.beats + 1)
        else s.(tries := s.tries + 1, timer := DISCOVERY_INTERVAL, beats := s.beats + 1)
      case NoEcho => s.(timer := NO_ECHO_INTERVAL, beats := s.beats + 1)
      case Confirmed => s.(timer := s.interval, beats := s.beats + 1)
  }

  function Hurried(timer: nat): nat {
    if timer % 7 < 2 then timer % 7 + 2 else timer % 7
  }

  function Heard(s: Service, id: Tag, m: Message): Service {
    if !Readable(m) then s.(crashed := true)
    else if IsRequest(m) && NamedValue(m.items, "command") == Some("request") then s.(timer := Hurried(s.timer))
    else if IsHeartbeat(m) && m.source == id && s.state != Confirmed
    then s.(state := Confirmed, timer := s.interval)
    else s
  }

  function Switched(s: Service, on: bool, sendOk: bool): Service {
    if s.enabled == on then s
    else if on then Beat(s.(enabled := true, state := Unconfirmed, tries := 0), sendOk)
    else s.(enabled := false)
  }

  /** Nothing happens any more after a crash. */
  function After(s: Service, id: Tag, e: Event): Service {
    if s.crashed then s
    else
      match e
      case Tick(sendOk) => if s.timer == 0 then Beat(s, sendOk) else s.(timer := s.timer - 1)
      case Receive(m) => Heard(s, id, m)
      case SetState(on, sendOk) => Switched(s, on, sendOk)
  }

  function Run(s: Service, id: Tag, events: seq<Event>): Service
    decreases |events|
  {
    if events == [] then s
    else After(Run(s, id, events[..|events| - 1]), id, events[|events| - 1])
  }

  // ----- invariants of all runs -----

  predicate Sound(s: Service) {
    && s.interval == HEARTBEAT_INTERVAL && s.timer <= HEARTBEAT_INTERVAL
    && (s.state == Unconfirmed ==> s.tries < MAX_TRIES)
    && (s.state == NoEcho ==> s.tries == MAX_TRIES)
    && (s.state == Confirmed ==> s.tries <= MAX_TRIES)
    && s.tries <= s.beats
  }

  /** Fewer than 40 tries while searching, exactly 40 after giving up, and no counter can overflow. */
  lemma {:induction false} RunSound(id: Tag, events: seq<Event>)
    ensures Sound(Run(NEW_SERVICE, id, events))
    decreases |events|
  {
    if events != [] {
      RunSound(id, events[..|events| - 1]);
    }
  }

  /** A heartbeat request in which no item has the name of the command. */
  ghost predicate Crashes(e: Event) {
    && e.Receive? && e.m.schemaClass == "hbeat" && e.m.schemaType == "request"
    && forall i :: 0 <= i < |e.m.items| ==> e.m.items[i].name != "command"
  }

  /** A run crashes if and only if a heartbeat request without a command is received in it. */
  lemma {:induction false} CrashesExactly(id: Tag, events: seq<Event>)
    ensures Run(NEW_SERVICE, id, events).crashed <==> exists i :: 0 <= i < |events| && Crashes(events[i])
    decreases |events|
  {
    if events != [] {
      var last := |events| - 1;
      CrashesExactly(id, events[..last]);
      if events[last].Receive? {
        NamedValueMeaning(events[last].m.items, "command");
      }
      assert events == events[..last] + [events[last]];
    }
  }

  /** The event is the service's own heartbeat coming back. */
  predicate IsEcho(id: Tag, e: Event) {
    e.Receive? && e.m.schemaClass == "hbeat" && e.m.schemaType == "app" && e.m.source == id
  }

  predicate Enables(s: Service, e: Event) {
    e.SetState? && e.on && !s.enabled
  }

  /** Event i is an echo, and the service was not enabled anew after it. */
  ghost predicate EchoStands(s: Service, id: Tag, events: seq<Event>, i: nat)
    requires i < |events|
  {
    && IsEcho(id, events[i])
    && forall j :: i < j < |events| ==> !Enables(Run(s, id, events[..j]), events[j])
  }

  /** One step of ConfirmedMeaning: confirmed is left by being enabled anew and in no other way. */
  lemma ConfirmedLeft(s: Service, id: Tag, e: Event)
    requires s.state == Confirmed && !s.crashed
    ensures After(s, id, e).state != Confirmed <==> Enables(s, e)
  {
  }

  /** The last change of the service state that was asked for. */
  function LastAsked(events: seq<Event>): bool {
    if events == [] then false
    else if events[|events| - 1].SetState? then events[|events| - 1].on
    else LastAsked(events[..|events| - 1])
  }

  /** A service is enabled exactly when this was asked for last. */
  lemma {:induction false} EnabledMeaning(id: Tag, events: seq<Event>)
    requires !Run(NEW_SERVICE, id, events).crashed
    ensures Run(NEW_SERVICE, id, events).enabled == LastAsked(events)
    decreases |events|
  {
    if events != [] {
      EnabledMeaning(id, events[..|events| - 1]);
    }
  }

  /** An echo has come since the service was last enabled. */
  ghost predicate EchoHeard(id: Tag, events: seq<Event>) {
    exists i: nat :: i < |events| && EchoStands(NEW_SERVICE, id, events, i)
  }

  /**
   * After any run that has not crashed: the hub is confirmed exactly when an
   * echo has come since the service was last enabled.
   */
  lemma {:induction false} ConfirmedMeaning(id: Tag, events: seq<Event>)
    requires !Run(NEW_SERVICE, id, events).crashed
    ensures Run(NEW_SERVICE, id, events).state == Confirmed <==> EchoHeard(id, events)
    decreases |events|
  {
    if events != [] {
      var init, e := events[..|events| - 1], events[|events| - 1];
      ConfirmedMeaning(id, init);
      EchoHeardStep(id, events);
      if Run(NEW_SERVICE, id, init).state == Confirmed {
        ConfirmedLeft(Run(NEW_SERVICE, id, init), id, e);
      }
    }
  }

  lemma EchoHeardStep(id: Tag, events: seq<Event>)
    requires events != []
    ensures
      var init, e := events[..|events| - 1], events[|events| - 1];
      EchoHeard(id, events)
      <==> IsEcho(id, e) || (EchoHeard(id, init) && !Enables(Run(NEW_SERVICE, id, init), e))
  {
    var last := |events| - 1;
    var init, e := events[..last], events[last];
    forall i: nat | i < last
      ensures EchoStands(NEW_SERVICE, id, events, i)
         <==> (EchoStands(NEW_SERVICE, id, init, i) && !Enables(Run(NEW_SERVICE, id, init), e))
    {
      EchoStandsStep(id, events, i);
    }
    if IsEcho(id, e) {
      assert EchoStands(NEW_SERVICE, id, events, last);
    } else if EchoHeard(id, init) {
      var i: nat :| i < last && EchoStands(NEW_SERVICE, id, init, i);
      assert EchoStands(NEW_SERVICE, id, events, i) <==> !Enables(Run(NEW_SERVICE, id, init), e);
    }
  }

  lemma EchoStandsStep(id: Tag, events: seq<Event>, i: nat)
    requires i < |events| - 1
    ensures
      var init, last := events[..|events| - 1], |events| - 1;
      EchoStands(NEW_SERVICE, id, events, i)
      <==> (EchoStands(NEW_SERVICE, id, init, i) && !Enables(Run(NEW_SERVICE, id, init), events[last]))
  {
    var init := events[..|events| - 1];
    forall j | i < j < |init| ensures init[..j] == events[..j] && init[j] == events[j] {
    }
  }

  // ----- runs of ticks -----

  function Ticks(n: nat): seq<Event> {
    seq(n, _ => Tick(true))
  }

  lemma TicksStep(s: Service, id: Tag, n: nat)
    ensures Run(s, id, Ticks(n + 1)) == After(Run(s, id, Ticks(n)), id, Tick(true))
  {
    assert Ticks(n + 1)[..n] == Ticks(n);
  }

  /** The service n ticks after it was enabled, when nothing is received. */
  function Unanswered(s: Service, n: nat): Service {
    if n < 156 then Service(true, s.interval, 3 - n % 4, 1 + n / 4, Unconfirmed, s.beats + 1 + n / 4, false)
    else Service(true, s.interval, 60 - (n - 156) % 61, 40, NoEcho, s.beats + 40 + (n - 156) / 61, false)
  }

  lemma UnansweredStep(s: Service, id: Tag, n: nat)
    ensures After(Unanswered(s, n), id, Tick(true)) == Unanswered(s, n + 1)
  {
    if n < 155 {
      NextOf4(n);
    } else if n >= 156 {
      NextOf61(n - 156);
    }
  }

  lemma NextOf4(n: nat)
    ensures if n % 4 == 3 then (n + 1) % 4 == 0 && (n + 1) / 4 == n / 4 + 1
            else (n + 1) % 4 == n % 4 + 1 && (n + 1) / 4 == n / 4
  {
  }

  lemma NextOf61(n: nat)
    ensures if n % 61 == 60 then (n + 1) % 61 == 0 && (n + 1) / 61 == n / 61 + 1
            else (n + 1) % 61 == n % 61 + 1 && (n + 1) / 61 == n / 61
  {
  }

  /**
   * A hub that never answers: the discovery heartbeats are four ticks apart,
   * the service gives up at tick 156, and from there on heartbeats are 61
   * ticks apart.
   */
  lemma {:induction false} SilentHub(s: Service, id: Tag, n: nat)
    requires !s.enabled && !s.crashed
    ensures Run(Switched(s, true, true), id, Ticks(n)) == Unanswered(s, n)
  {
    if n > 0 {
      SilentHub(s, id, n - 1);
      TicksStep(Switched(s, true, true), id, n - 1);
      UnansweredStep(s, id, n - 1);
    }
  }

  lemma NextOf301(n: nat)
    ensures if n % 301 == 300 then (n + 1) % 301 == 0 && (n + 1) / 301 == n / 301 + 1
            else (n + 1) % 301 == n % 301 + 1 && (n + 1) / 301 == n / 301
  {
  }

  /** A confirmed service sends a heartbeat every 301 ticks, though the interval is 300 seconds. */
  lemma {:induction false} ConfirmedBeats(s: Service, id: Tag, n: nat)
    requires s.state == Confirmed && !s.crashed && s.timer == s.interval == HEARTBEAT_INTERVAL
    ensures Run(s, id, Ticks(n)) == s.(timer := 300 - n % 301, beats := s.beats + n / 301)
  {
    if n > 0 {
      NextOf301(n - 1);
      ConfirmedBeats(s, id, n - 1);
      TicksStep(s, id, n - 1);
    }
  }

  /** No heartbeat is sent before the timer has run out, and one is sent right then. */
  lemma {:induction false} CountDown(s: Service, id: Tag, n: nat)
    requires n <= s.timer + 1 && !s.crashed
    ensures
      var s' := Run(s, id, Ticks(n));
      if n <= s.timer then s' == s.(timer := s.timer - n) else s' == Beat(s.(timer := 0), true)
  {
    if n > 0 {
      CountDown(s, id, n - 1);
      TicksStep(s, id, n - 1);
    }
  }

  /** A heartbeat that could not be sent is tried again at every tick, until one is sent. */
  lemma {:induction false} RetriedUntilSent(s: Service, id: Tag, n: nat)
    requires s.timer == 0 && !s.crashed
    ensures
      var failing := Run(s, id, seq(n, _ => Tick(false)));
      failing == s && After(failing, id, Tick(true)).beats == s.beats + 1
  {
    if n > 0 {
      RetriedUntilSent(s, id, n - 1);
      assert seq(n, _ => Tick(false))[..n - 1] == seq(n - 1, _ => Tick(false));
    }
  }

  lemma {:induction false} BeatsGrow(s: Service, id: Tag, n: nat, more: nat)
    ensures Run(s, id, Ticks(n)).beats <= Run(s, id, Ticks(n + more)).beats
    decreases more
  {
    if more > 0 {
      BeatsGrow(s, id, n, more - 1);
      TicksStep(s, id, n + more - 1);
    }
  }

  /**
   * A service that is disabled, or never was enabled, is documented to be
   * silent: it is so for n ticks exactly when its timer is at least n.
   */
  lemma SilentExactly(s: Service, id: Tag, n: nat)
    requires !s.crashed
    ensures Run(s, id, Ticks(n)).beats == s.beats <==> n <= s.timer
  {
    if n <= s.timer {
      CountDown(s, id, n);
    } else {
      CountDown(s, id, s.timer + 1);
      BeatsGrow(s, id, s.timer + 1, n - s.timer - 1);
    }
  }

  /** The case of a service just created: not yet enabled, it sends a heartbeat at the first tick. */
  lemma NewServiceBeats(id: Tag)
    ensures
      var s := Run(NEW_SERVICE, id, Ticks(1));
      !s.enabled && s.beats == 1
  {
    SilentExactly(NEW_SERVICE, id, 1);
    CountDown(NEW_SERVICE, id, 1);
  }

  /**
   * A heartbeat request is answered in 3 to 7 ticks: after the rest of the
   * timer by 7, or two more if that is 0 or 1, the next tick sends a heartbeat.
   */
  lemma RequestAnswered(s: Service, id: Tag, m: Message, n: nat)
    requires !s.crashed && m.schemaClass == "hbeat" && m.schemaType == "request"
    requires NamedValue(m.items, "command") == Some("request")
    ensures
      var wait := if s.timer % 7 == 0 then 2 else if s.timer % 7 == 1 then 3 else s.timer % 7;
      var h := After(s, id, Receive(m));
      && h == s.(timer := wait)
      && (Run(h, id, Ticks(n)).beats > s.beats <==> n > wait)
  {
    var h := After(s, id, Receive(m));
    SilentExactly(h, id, n);
    BeatsGrow(h, id, 0, n);
    assert Ticks(0) == [];
  }

  /** Messages other than heartbeat requests and the service's own heartbeat change nothing. */
  lemma OthersIgnored(s: Service, id: Tag, m: Message)
    requires m.schemaClass == "hbeat" && m.schemaType == "request" ==>
      var command := NamedValue(m.items, "command");
      command.Some? && command.value != "request"
    requires !IsEcho(id, Receive(m))
    ensures After(s, id, Receive(m)) == s
  {
  }

  // ----- the echo of a heartbeat -----

  function HeartbeatMessage(id: Tag, interval: nat, port: nat, remoteIP: string, version: Option<string>): Message {
    var items := [NameValue("interval", Decimal(interval / 60)), NameValue("port", Decimal(port)),
                  NameValue("remote-ip", remoteIP)];
    Message(StatusType, id, None, "hbeat", "app",
            items + if version.Some? then [NameValue("version", version.value)] else [])
  }

  /** A value that fits the receiver's buffer and has allowed characters only. */
  predicate ValueFine(value: string) {
    |value| < ITEM_SIZE && AllowedText(value)
  }

  lemma ItemIsFine(name: string, value: string)
    requires name in ["interval", "port", "remote-ip", "version"] && ValueFine(value)
    ensures ItemFine(NameValue(name, value))
  {
  }

  /** The interval is at most two days, the largest that can be set. */
  lemma HeartbeatFramed(id: Tag, interval: nat, port: nat, remoteIP: string, version: Option<string>)
    requires TagFramed(id) && TagAllowed(id) && interval <= 172_800 && port < 0x1_0000
    requires ValueFine(remoteIP) && (version.Some? ==> ValueFine(version.value))
    ensures
      var m := HeartbeatMessage(id, interval, port, remoteIP, version);
      Framed(m) && CharactersAllowed(m)
  {
    var m := HeartbeatMessage(id, interval, port, remoteIP, version);
    DecimalDigits(interval / 60, 5);
    DecimalDigits(port, 5);
    ItemIsFine("interval", Decimal(interval / 60));
    ItemIsFine("port", Decimal(port));
    ItemIsFine("remote-ip", remoteIP);
    if version.Some? {
      ItemIsFine("version", version.value);
    }
    assert forall i :: 0 <= i < |m.items| ==> ItemFine(m.items[i]);
    assert "hbeat" + "." + "app" == "hbeat.app";
  }

  /**
   * A heartbeat is a status message to all. It tells the interval in minutes
   * and the port, which DecimalNumber says can be read back, the address, and
   * the version if there is one.
   */
  lemma HeartbeatTells(id: Tag, interval: nat, port: nat, remoteIP: string, version: Option<string>)
    ensures
      var m := HeartbeatMessage(id, interval, port, remoteIP, version);
      && m.messageType == StatusType && m.source == id && m.target.None?
      && NamedValue(m.items, "interval") == Some(Decimal(interval / 60))
      && NamedValue(m.items, "port") == Some(Decimal(port))
      && NamedValue(m.items, "remote-ip") == Some(remoteIP) && NamedValue(m.items, "version") == version
  {
    hide Decimal, NamedValue;
    var m := HeartbeatMessage(id, interval, port, remoteIP, version);
    assert FirstNamed(m.items, "interval", 0) && FirstNamed(m.items, "port", 1) && FirstNamed(m.items, "remote-ip", 2);
    assert version.Some? ==> FirstNamed(m.items, "version", 3);
    NamedValueMeaning(m.items, "interval");
    NamedValueMeaning(m.items, "port");
    NamedValueMeaning(m.items, "remote-ip");
    NamedValueMeaning(m.items, "version");
  }

  /**
   * From the printer through the parser to the state: the heartbeat a service
   * sends, when it is read back from the hub, confirms the hub.
   */
  lemma EchoConfirms(s: Service, id: Tag, port: nat, remoteIP: string, version: Option<string>)
    requires TagFramed(id) && TagAllowed(id) && s.interval <= 172_800 && port < 0x1_0000
    requires ValueFine(remoteIP) && (version.Some? ==> ValueFine(version.value))
    ensures
      var m := HeartbeatMessage(id, s.interval, port, remoteIP, version);
      && ParsedMessage(Rendering(m)) == Some(Received(1, m))
      && IsEcho(id, Event.Receive(m))
      && After(s, id, Receive(m))
         == if s.crashed || s.state == Confirmed then s else s.(state := Confirmed, timer := s.interval)
  {
    hide ParsedMessage, Rendering, Framed, CharactersAllowed;
    HeartbeatFramed(id, s.interval, port, remoteIP, version);
    RoundTrip(HeartbeatMessage(id, s.interval, port, remoteIP, version));
  }

  // ----- the object -----

  class XplService {
    const id: Tag
    var serviceEnabled: bool
    var heartbeatInterval: nat
    var heartbeatTimer: nat
    var discoveryTries: nat
    var discoveryState: Discovery
    // Heartbeats and goodbyes handed to the socket.
    var beats: nat
    var goodbyes: nat
    // The process has ended.
    var crashed: bool

    ghost function Value(): Service
      reads this
    {
      Service(serviceEnabled, heartbeatInterval, heartbeatTimer, discoveryTries, discoveryState, beats, crashed)
    }

    constructor (source: Tag)
      ensures id == source && Value() == NEW_SERVICE && goodbyes == 0
    {
      id := source;
      serviceEnabled, heartbeatInterval, heartbeatTimer := false, HEARTBEAT_INTERVAL, 0;
      discoveryTries, discoveryState, beats, goodbyes, crashed := 0, Unconfirmed, 0, 0, false;
    }

    /** sendOk tells whether the message could be sent. */
    method SendHeartbeat(sendOk: bool) returns (ok: bool)
      modifies this
      ensures ok == sendOk && goodbyes == old(goodbyes)
      ensures Value() == Beat(old(Value()), sendOk)
    {
      if !sendOk {
        return false;
      }
      beats := beats + 1;
      var hbi;
      match discoveryState {
        case Unconfirmed =>
          discoveryTries := discoveryTries + 1;
          if discoveryTries >= MAX_TRIES {
            discoveryState := NoEcho;
            hbi := NO_ECHO_INTERVAL;
          } else {
            hbi := DISCOVERY_INTERVAL;
          }
        case NoEcho => hbi := NO_ECHO_INTERVAL;
        case Confirmed => hbi := heartbeatInterval;
      }
      heartbeatTimer := hbi;
      return true;
    }

    /** The part of xplTick for one service. */
    method XplTick(sendOk: bool)
      requires !crashed
      modifies this
      ensures Value() == After(old(Value()), id, Tick(sendOk)) && goodbyes == old(goodbyes)
    {
      if heartbeatTimer == 0 {
        var _ := SendHeartbeat(sendOk);
      } else {
        heartbeatTimer := heartbeatTimer - 1;
      }
    }

    /** The part of rxReadyAction that answers requests and looks for the echo. */
    method ReceiveMessage(xm: Message)
      requires !crashed
      modifies this
      ensures Value() == After(old(Value()), id, Receive(xm)) && goodbyes == old(goodbyes)
    {
      var isApp, isHbeat := xm.schemaType == "app", xm.schemaClass == "hbeat";
      var heartbeat := false;
      if isApp && isHbeat {
        heartbeat := true;
      } else if isHbeat && xm.schemaType == "request" {
        var command := GetNamedValue(xm.items, "command");
        if command.None? {
          crashed := true;
          return;
        }
        if command.value == "request" {
          heartbeatTimer := heartbeatTimer % 7;
          if heartbeatTimer < 2 {
            heartbeatTimer := heartbeatTimer + 2;
          }
        }
      }
      var matchCount := 0;
      if xm.source.device == id.device {
        matchCount := matchCount + 1;
      }
      if xm.source.vendor == id.vendor {
        matchCount := matchCount + 1;
      }
      if xm.source.instance == id.instance {
        matchCount := matchCount + 1;
      }
      if matchCount >= 3 {
        if discoveryState != Confirmed {
          if heartbeat {
            discoveryState := Confirmed;
            heartbeatTimer := heartbeatInterval;
          }
        }
      }
    }

    method SetServiceState(newState: bool, sendOk: bool)
      requires !crashed
      modifies this
      ensures Value() == After(old(Value()), id, SetState(newState, sendOk))
      ensures goodbyes == old(goodbyes) + if old(serviceEnabled) && !newState then 1 else 0
    {
      if serviceEnabled == newState {
        return;
      }
      serviceEnabled := newState;
      if newState {
        discoveryState := Unconfirmed;
        discoveryTries := 0;
        var _ := SendHeartbeat(sendOk);
      } else {
        goodbyes := goodbyes + 1;
      }
    }
  }
}
