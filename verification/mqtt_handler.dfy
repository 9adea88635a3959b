/** The ingest and device-state engine of
    custom_components/rebuli_rf_bridge/mqtt_handler.py, as a state machine.

    The process-wide `ENTITIES` dictionary becomes the `entities` map of a
    `State`. Each MQTT message is one `Message` event: its payload is the
    integer `code` when the JSON envelope was well formed and `None` otherwise,
    it carries the allow-list read at delivery time and whether the entity
    platform could be obtained. The asyncio auto-off task of a binary sensor
    becomes a pending token on the record; the task's completion after its
    sleep is a `TimerFire` event naming that token. Log lines, the bus event
    and the entity-platform calls become `Notice`s. */
module MqttHandler {
  import opened Wrappers
  import opened Parsers
  import opened EntityKeys

  /** Identifies one scheduled auto-off task. */
  type Token = nat

  /** `RebuliSensor` and `RebuliBinarySensor`. Only the binary class keeps an
      auto-off flag and a pending auto-off task. */
  datatype Device =
    | Sensor(kind: SensorKind, deviceId: DeviceId, state: Value)
    | BinarySensor(deviceId: DeviceId, state: Value, autoOff: bool, timer: Option<Token>)
  {
    function Kind(): SensorKind
    {
      if Sensor? then kind else Binary
    }

    /** The auto-off task still waiting to fire, if any. */
    function Pending(): Option<Token>
    {
      if BinarySensor? then timer else None
    }
  }

  /** The entity map and the next unused timer token. */
  datatype State = State(entities: map<string, Device>, nextToken: Token)

  /** What the handler reports to the outside world. */
  datatype Notice =
    | InvalidMessage              // warning: the envelope was not usable
    | UnknownCode(code: int)      // the `rebuli_rf_bridge.unknown_code` bus event
    | NotAllowed(idHex: string)   // warning: device id not in the allow-list
    | PlatformMissing             // error: no entity platform after the retries
    | EntityAdded(key: string)    // `async_add_entities` with the new entity
    | StateWritten(key: string)   // `async_write_ha_state` of an existing entity

  datatype Event =
    | Message(payload: Option<int>, allowedIds: seq<string>, platformUp: bool)
    | TimerFire(key: string, token: Token)

  datatype Outcome = Outcome(state: State, notices: seq<Notice>)

  /** Python truthiness of a reading's value (`if value:`). */
  predicate Truthy(v: Value)
    ensures Truthy(v) <==> v !in {Number(0.0), Count(0), Flag(false)}
  {
    match v
    case Number(x) => x != 0.0
    case Count(n) => n != 0
    case Flag(b) => b
  }

  /** The allow-list test: an empty list admits every device. */
  predicate Admits(allowed: seq<string>, d: DeviceId)
  {
    |allowed| == 0 || Hex4(d) in allowed
  }

  /** An allow-list entry admits exactly the device whose id its four
      upper-case hexadecimal digits spell; any other entry admits nothing. */
  lemma AdmitsSpelled(allowed: seq<string>, d: DeviceId)
    ensures Admits(allowed, d) <==> |allowed| == 0 || exists i :: 0 <= i < |allowed| && Spells(allowed[i], d)
  {
    if i :| 0 <= i < |allowed| && Spells(allowed[i], d) {
      Hex4Unique(allowed[i], d);
    }
  }

  /** The entity built on the first sight of a key: binary readings make a
      binary sensor that keeps the reading's auto-off bit and has no task. */
  function NewDevice(r: Reading): (d: Device)
    ensures d.Kind() == r.kind && d.deviceId == r.deviceId && d.state == r.value
    ensures d.BinarySensor? <==> r.kind == Binary
    ensures d.BinarySensor? ==> d.autoOff == (r.autoOff == Some(true))
    ensures d.Pending().None?
  {
    if r.kind == Binary then BinarySensor(r.deviceId, r.value, r.autoOff == Some(true), None)
    else Sensor(r.kind, r.deviceId, r.value)
  }

  /** `update_state` of either entity class, given the next unused token.
      A binary sensor with auto-off cancels its pending task and, when the new
      value is truthy, schedules a fresh one. */
  function UpdateState(d: Device, v: Value, next: Token): (r: (Device, Token))
    ensures r.0.Kind() == d.Kind() && r.0.deviceId == d.deviceId && r.0.state == v
    ensures r.0.BinarySensor? == d.BinarySensor?
    ensures r.0.BinarySensor? ==> r.0.autoOff == d.autoOff
    ensures d.BinarySensor? && d.autoOff ==> (r.0.Pending() == if Truthy(v) then Some(next) else None)
    ensures d.BinarySensor? && d.autoOff && Truthy(v) ==> r.1 == next + 1
    ensures !(d.BinarySensor? && d.autoOff && Truthy(v)) ==> r.1 == next
    ensures !(d.BinarySensor? && d.autoOff) ==> r.0.Pending() == d.Pending()
  {
    match d
    case Sensor(kind, id, _) => (Sensor(kind, id, v), next)
    case BinarySensor(id, _, autoOff, timer) =>
      if !autoOff then (BinarySensor(id, v, autoOff, timer), next)
      else if Truthy(v) then (BinarySensor(id, v, autoOff, Some(next)), next + 1)
      else (BinarySensor(id, v, autoOff, None), next)
  }

  /** The part of `message_received` after decoding: the allow-list, then
      create-on-first-sight or update-in-place. */
  function Accept(s: State, rd: Reading, allowed: seq<string>, platformUp: bool): (r: Outcome)
    ensures s.entities.Keys <= r.state.entities.Keys
    ensures r.state.entities.Keys <= s.entities.Keys + {EntityKey(rd.kind, rd.deviceId)}
    ensures |r.notices| == 1
  {
    var key := EntityKey(rd.kind, rd.deviceId);
    if !Admits(allowed, rd.deviceId) then
      Outcome(s, [NotAllowed(Hex4(rd.deviceId))])
    else if key !in s.entities then
      if !platformUp then Outcome(s, [PlatformMissing])
      else Outcome(s.(entities := s.entities[key := NewDevice(rd)]), [EntityAdded(key)])
    else
      var (d, next) := UpdateState(s.entities[key], rd.value, s.nextToken);
      Outcome(State(s.entities[key := d], next), [StateWritten(key)])
  }

  /** `message_received`. */
  function Ingest(s: State, payload: Option<int>, allowed: seq<string>, platformUp: bool): (r: Outcome)
    ensures s.entities.Keys <= r.state.entities.Keys
    ensures |r.state.entities.Keys| <= |s.entities.Keys| + 1
    ensures |r.notices| == 1
  {
    match payload
    case None => Outcome(s, [InvalidMessage])
    case Some(code) =>
      match Decode(code)
      case None => Outcome(s, [UnknownCode(code)])
      case Some(rd) =>
        var r := Accept(s, rd, allowed, platformUp);
        assert r.state.entities.Keys <= s.entities.Keys + {EntityKey(rd.kind, rd.deviceId)};
        r
  }

  /** `_auto_reset` completing its sleep: only the task still pending on the
      entity has an effect, and that effect is to switch the entity off. */
  function Fire(s: State, key: string, token: Token): (r: Outcome)
    ensures r.state.entities.Keys == s.entities.Keys
    ensures r.state.nextToken == s.nextToken
  {
    if key in s.entities && s.entities[key].Pending() == Some(token) then
      var d := s.entities[key];
      Outcome(s.(entities := s.entities[key := d.(state := Flag(false), timer := None)]), [StateWritten(key)])
    else
      Outcome(s, [])
  }

  function Step(s: State, e: Event): Outcome
  {
    match e
    case Message(payload, allowed, up) => Ingest(s, payload, allowed, up)
    case TimerFire(key, token) => Fire(s, key, token)
  }

  /** The state after a sequence of events. */
  function Run(s: State, events: seq<Event>): State
    decreases |events|
  {
    if |events| == 0 then s else Run(Step(s, events[0]).state, events[1..])
  }

  /** `_unit`: the unit label of a non-binary kind. The temperature label is
      the two characters U+00C2 U+00B0 followed by `C`, as the source spells it. */
  function Unit(k: SensorKind): (u: Option<string>)
    ensures u.None? <==> k == Binary
  {
    match k
    case Temperature => Some("\U{00C2}\U{00B0}C")
    case Humidity => Some("%")
    case Distance => Some("cm")
    case Power => Some("W")
    case Voltage => Some("V")
    case Current => Some("A")
    case Battery => Some("%")
    case Binary => None
  }

  // ---------------------------------------------------------------------
  // The engine invariant

  /** A record's value matches its class, and only an auto-off binary sensor
      holds a task, whose token has been handed out already. */
  predicate DeviceOk(d: Device, next: Token)
  {
    match d
    case Sensor(kind, _, v) => kind != Binary && !v.Flag?
    case BinarySensor(_, v, autoOff, timer) => v.Flag? && (timer.Some? ==> autoOff && timer.value < next)
  }

  /** Every entity sits under the key derived from its own kind and id, and no
      two entities share a pending task. */
  ghost predicate Valid(s: State)
  {
    && (forall k :: k in s.entities ==> k == EntityKey(s.entities[k].Kind(), s.entities[k].deviceId))
    && (forall k :: k in s.entities ==> DeviceOk(s.entities[k], s.nextToken))
    && (forall k1, k2 :: k1 in s.entities && k2 in s.entities && k1 != k2 && s.entities[k1].Pending().Some?
          ==> s.entities[k1].Pending() != s.entities[k2].Pending())
  }

  /** Replacing one entity keeps the invariant when the new record is well
      formed, sits under its own key and holds no task another entity holds. */
  lemma PutPreservesValid(s: State, key: string, d: Device, next: Token)
    requires Valid(s)
    requires next >= s.nextToken
    requires key == EntityKey(d.Kind(), d.deviceId)
    requires DeviceOk(d, next)
    requires forall k :: k in s.entities && k != key && d.Pending().Some? ==> s.entities[k].Pending() != d.Pending()
    ensures Valid(State(s.entities[key := d], next))
  {
    var m := s.entities[key := d];
    forall k | k in m
      ensures k == EntityKey(m[k].Kind(), m[k].deviceId)
      ensures DeviceOk(m[k], next)
    {
      if k != key {
        assert m[k] == s.entities[k];
        assert DeviceOk(s.entities[k], s.nextToken);
      }
    }
    forall k1, k2 | k1 in m && k2 in m && k1 != k2 && m[k1].Pending().Some?
      ensures m[k1].Pending() != m[k2].Pending()
    {
      if k1 != key && k2 != key {
        assert m[k1] == s.entities[k1] && m[k2] == s.entities[k2];
      }
    }
  }

  /** What the decoder guarantees of every reading it produces: the value is
      a boolean exactly for the binary kind. */
  predicate WellTyped(rd: Reading)
  {
    rd.value.Flag? <==> rd.kind == Binary
  }

  lemma AcceptPreservesValid(s: State, rd: Reading, allowed: seq<string>, up: bool)
    requires Valid(s) && WellTyped(rd)
    ensures Valid(Accept(s, rd, allowed, up).state)
  {
    var key := EntityKey(rd.kind, rd.deviceId);
    if Admits(allowed, rd.deviceId) {
      if key !in s.entities {
        if up {
          PutPreservesValid(s, key, NewDevice(rd), s.nextToken);
        }
      } else {
        var d0 := s.entities[key];
        assert key == EntityKey(d0.Kind(), d0.deviceId);
        EntityKeyInjective(d0.Kind(), d0.deviceId, rd.kind, rd.deviceId);
        assert DeviceOk(d0, s.nextToken);
        var (d, next) := UpdateState(d0, rd.value, s.nextToken);
        forall k | k in s.entities && k != key && d.Pending().Some?
          ensures s.entities[k].Pending() != d.Pending()
        {
          if d.Pending() != d0.Pending() {
            assert d.Pending() == Some(s.nextToken);
            assert DeviceOk(s.entities[k], s.nextToken);
          }
        }
        PutPreservesValid(s, key, d, next);
      }
    }
  }

  /** A decoded message is handed to `Accept` unchanged. */
  lemma IngestAccepts(s: State, code: int, allowed: seq<string>, up: bool)
    requires Decode(code).Some?
    ensures WellTyped(Decode(code).value)
    ensures Ingest(s, Some(code), allowed, up) == Accept(s, Decode(code).value, allowed, up)
  {
  }

  lemma IngestPreservesValid(s: State, payload: Option<int>, allowed: seq<string>, up: bool)
    requires Valid(s)
    ensures Valid(Ingest(s, payload, allowed, up).state)
  {
    if payload.Some? && Decode(payload.value).Some? {
      IngestAccepts(s, payload.value, allowed, up);
      AcceptPreservesValid(s, Decode(payload.value).value, allowed, up);
    }
  }

  lemma FirePreservesValid(s: State, key: string, token: Token)
    requires Valid(s)
    ensures Valid(Fire(s, key, token).state)
  {
    if key in s.entities && s.entities[key].Pending() == Some(token) {
      var d := s.entities[key];
      assert DeviceOk(d, s.nextToken);
      PutPreservesValid(s, key, d.(state := Flag(false), timer := None), s.nextToken);
    }
  }

  lemma StepPreservesValid(s: State, e: Event)
    requires Valid(s)
    ensures Valid(Step(s, e).state)
  {
    match e
    case Message(p, a, up) => IngestPreservesValid(s, p, a, up);
    case TimerFire(k, t) => FirePreservesValid(s, k, t);
  }

  /** The invariant holds after any sequence of messages and timer firings. */
  lemma {:induction false} RunPreservesValid(s: State, events: seq<Event>)
    requires Valid(s)
    ensures Valid(Run(s, events))
    decreases |events|
  {
    if |events| > 0 {
      StepPreservesValid(s, events[0]);
      RunPreservesValid(Step(s, events[0]).state, events[1..]);
    }
  }

  /** The engine starts from an empty `ENTITIES` map, which is valid. */
  lemma InitValid()
    ensures Valid(State(map[], 0))
  {
  }

  // ---------------------------------------------------------------------
  // Properties of one message

  /** A message without a usable integer code changes nothing and raises no
      bus event. */
  lemma MalformedMessageIgnored(s: State, allowed: seq<string>, up: bool)
    ensures Ingest(s, None, allowed, up).state == s
    ensures forall n :: n in Ingest(s, None, allowed, up).notices ==> !n.UnknownCode?
  {
  }

  /** A code the decoder rejects, which is exactly a code of 2^32 or more,
      leaves the map alone and raises one `unknown_code` event carrying the
      code as received; no other code raises one. */
  lemma UnknownCodeReported(s: State, code: int, allowed: seq<string>, up: bool)
    ensures Decode(code).None? <==> code >= CodeLimit
    ensures code >= CodeLimit ==> Ingest(s, Some(code), allowed, up) == Outcome(s, [UnknownCode(code)])
    ensures code < CodeLimit ==> forall n :: n in Ingest(s, Some(code), allowed, up).notices ==> !n.UnknownCode?
  {
    if code < CodeLimit {
      IngestAccepts(s, code, allowed, up);
    }
  }

  /** A reading is dropped, with nothing created or changed, exactly when the
      allow-list is non-empty and lacks the id's four hex digits. */
  lemma AllowListFilter(s: State, rd: Reading, allowed: seq<string>, up: bool)
    ensures Accept(s, rd, allowed, up).notices == [NotAllowed(Hex4(rd.deviceId))]
            <==> (|allowed| > 0 && Hex4(rd.deviceId) !in allowed)
    ensures !Admits(allowed, rd.deviceId) ==> Accept(s, rd, allowed, up).state == s
    ensures |allowed| == 0 ==> Admits(allowed, rd.deviceId)
  {
  }

  /** An allow-list holding "0A1B" admits device 0x0A1B and refuses 0x0A1C,
      whatever the kind. */
  lemma AllowListSample()
    ensures Admits(["0A1B"], 0x0A1B)
    ensures !Admits(["0A1B"], 0x0A1C)
    ensures EntityKey(Binary, 0x1234) == "binary_1234"
  {
    assert Hex4(0x0A1B) == "0A1B";
    assert Hex4(0x0A1C) == "0A1C";
    assert Hex4(0x1234) == "1234";
  }

  /** First sight of a key: with the platform available exactly one entity is
      added, holding the reading's value; a binary entity keeps the reading's
      auto-off bit and starts without a task. Without a platform nothing is
      added. */
  lemma CreateOnFirstSight(s: State, rd: Reading, allowed: seq<string>, up: bool)
    requires Admits(allowed, rd.deviceId)
    requires EntityKey(rd.kind, rd.deviceId) !in s.entities
    ensures var key := EntityKey(rd.kind, rd.deviceId);
            var r := Accept(s, rd, allowed, up);
            && (up ==> && r.state.entities.Keys == s.entities.Keys + {key}
                       && |r.state.entities| == |s.entities| + 1
                       && r.state.entities[key].state == rd.value
                       && r.state.entities[key].Kind() == rd.kind
                       && r.state.entities[key].Pending().None?
                       && (rd.kind == Binary ==> r.state.entities[key].autoOff == (rd.autoOff == Some(true)))
                       && (forall k :: k in s.entities ==> r.state.entities[k] == s.entities[k])
                       && r.notices == [EntityAdded(key)])
            && (!up ==> r == Outcome(s, [PlatformMissing]))
  {
  }

  /** A later reading for a known key changes only that entity's value (and,
      for a binary sensor, its task); its class, kind, id and auto-off flag
      stay, the other entities are untouched, and no platform is needed. */
  lemma UpdateInPlace(s: State, rd: Reading, allowed: seq<string>, up: bool)
    requires Admits(allowed, rd.deviceId)
    requires EntityKey(rd.kind, rd.deviceId) in s.entities
    ensures var key := EntityKey(rd.kind, rd.deviceId);
            var r := Accept(s, rd, allowed, up);
            && r.state.entities.Keys == s.entities.Keys
            && r.state.entities[key].state == rd.value
            && r.state.entities[key].Kind() == s.entities[key].Kind()
            && r.state.entities[key].deviceId == s.entities[key].deviceId
            && r.state.entities[key].BinarySensor? == s.entities[key].BinarySensor?
            && (r.state.entities[key].BinarySensor? ==> r.state.entities[key].autoOff == s.entities[key].autoOff)
            && (forall k :: k in s.entities && k != key ==> r.state.entities[k] == s.entities[k])
            && r == Accept(s, rd, allowed, !up)
  {
  }

  /** A binary reading for a known sensor: an auto-off sensor then has a task
      exactly when the reading is "on", a sensor without auto-off never holds
      one, and the task pending before can no longer fire. */
  lemma BinaryUpdateTimer(s: State, rd: Reading, allowed: seq<string>, up: bool)
    requires Valid(s) && WellTyped(rd) && rd.kind == Binary
    requires Admits(allowed, rd.deviceId)
    requires EntityKey(Binary, rd.deviceId) in s.entities
    ensures var key := EntityKey(Binary, rd.deviceId);
            var s' := Accept(s, rd, allowed, up).state;
            && s'.entities[key].BinarySensor?
            && (s'.entities[key].autoOff ==> (s'.entities[key].timer.Some? <==> rd.value.on))
            && (!s'.entities[key].autoOff ==> s'.entities[key].timer.None?)
            && (s.entities[key].Pending().Some? ==>
                  Fire(s', key, s.entities[key].Pending().value) == Outcome(s', []))
  {
    var key := EntityKey(Binary, rd.deviceId);
    var d := s.entities[key];
    assert key == EntityKey(d.Kind(), d.deviceId);
    EntityKeyInjective(d.Kind(), d.deviceId, Binary, rd.deviceId);
    assert DeviceOk(d, s.nextToken);
  }

  /** A firing switches the entity off and clears its task exactly when the
      token is the entity's pending task; any other firing changes nothing. */
  lemma FireEffect(s: State, key: string, token: Token)
    ensures var r := Fire(s, key, token);
            (r.state == s) <==> !(key in s.entities && s.entities[key].Pending() == Some(token))
    ensures var r := Fire(s, key, token);
            key in s.entities && s.entities[key].Pending() == Some(token) ==>
              && r.state.entities[key].state == Flag(false)
              && r.state.entities[key].Pending().None?
              && r.state.entities[key].Kind() == s.entities[key].Kind()
              && r.state.entities[key].deviceId == s.entities[key].deviceId
              && r.state.entities[key].autoOff == s.entities[key].autoOff
              && (forall k :: k in s.entities && k != key ==> r.state.entities[k] == s.entities[k])
  {
  }

  /** The first reading of a device creates it without a task, so an "on"
      reading that creates an auto-off binary sensor is never switched off
      by a firing: the sensor stays on until its next message. */
  lemma FirstOnReadingStaysOn(s: State, rd: Reading, allowed: seq<string>, token: Token)
    requires rd.kind == Binary && rd.value == Flag(true) && rd.autoOff == Some(true)
    requires Admits(allowed, rd.deviceId)
    requires EntityKey(Binary, rd.deviceId) !in s.entities
    ensures var key := EntityKey(Binary, rd.deviceId);
            var s' := Accept(s, rd, allowed, true).state;
            && s'.entities[key].state == Flag(true)
            && s'.entities[key].autoOff
            && Fire(s', key, token).state == s'
  {
  }

  /** Two "on" readings for a known auto-off sensor: the task armed by the
      first is superseded, so only the second one's firing switches it off. */
  lemma SecondOnRestartsTimer(s: State, rd: Reading, allowed: seq<string>, up: bool)
    requires rd.kind == Binary && rd.value == Flag(true)
    requires Admits(allowed, rd.deviceId)
    requires var key := EntityKey(Binary, rd.deviceId);
             key in s.entities && s.entities[key].BinarySensor? && s.entities[key].autoOff
    ensures var key := EntityKey(Binary, rd.deviceId);
            var s1 := Accept(s, rd, allowed, up).state;
            var s2 := Accept(s1, rd, allowed, up).state;
            && s1.entities[key].Pending() == Some(s.nextToken)
            && s2.entities[key].Pending() == Some(s1.nextToken)
            && s.nextToken != s1.nextToken
            && Fire(s2, key, s.nextToken) == Outcome(s2, [])
            && Fire(s2, key, s1.nextToken).state.entities[key].state == Flag(false)
  {
  }

  /** Delivering the same accepted reading twice creates no second entity,
      and the second delivery leaves every entity with the value the first one
      gave it. */
  lemma RepeatedReading(s: State, rd: Reading, allowed: seq<string>)
    requires Admits(allowed, rd.deviceId)
    ensures var key := EntityKey(rd.kind, rd.deviceId);
            var r1 := Accept(s, rd, allowed, true);
            var r2 := Accept(r1.state, rd, allowed, true);
            && r2.state.entities.Keys == r1.state.entities.Keys
            && (forall k :: k in r1.state.entities ==> r2.state.entities[k].state == r1.state.entities[k].state)
            && r2.notices == [StateWritten(key)]
  {
    var key := EntityKey(rd.kind, rd.deviceId);
    var r1 := Accept(s, rd, allowed, true);
    if key in s.entities {
      UpdateInPlace(s, rd, allowed, true);
    } else {
      CreateOnFirstSight(s, rd, allowed, true);
    }
    UpdateInPlace(r1.state, rd, allowed, true);
  }

  /** Writing a sensor's own value back to it changes nothing. */
  lemma SensorRewrite(st: State, rd: Reading, allowed: seq<string>)
    requires Admits(allowed, rd.deviceId)
    requires EntityKey(rd.kind, rd.deviceId) in st.entities
    requires st.entities[EntityKey(rd.kind, rd.deviceId)] == Sensor(rd.kind, rd.deviceId, rd.value)
    ensures Accept(st, rd, allowed, true).state == st
  {
    var key := EntityKey(rd.kind, rd.deviceId);
    assert st.entities[key := st.entities[key]] == st.entities;
  }

  /** For a non-binary reading the second delivery changes nothing at all. */
  lemma RepeatedSensorReading(s: State, rd: Reading, allowed: seq<string>)
    requires Valid(s) && rd.kind != Binary
    requires Admits(allowed, rd.deviceId)
    ensures var r1 := Accept(s, rd, allowed, true);
            Accept(r1.state, rd, allowed, true).state == r1.state
  {
    var key := EntityKey(rd.kind, rd.deviceId);
    var r1 := Accept(s, rd, allowed, true);
    if key in s.entities {
      var d0 := s.entities[key];
      assert key == EntityKey(d0.Kind(), d0.deviceId);
      EntityKeyInjective(d0.Kind(), d0.deviceId, rd.kind, rd.deviceId);
      assert d0.Sensor?;
    }
    assert r1.state.entities[key] == Sensor(rd.kind, rd.deviceId, rd.value);
    SensorRewrite(r1.state, rd, allowed);
  }

  // ---------------------------------------------------------------------
  // Properties of whole runs

  /** `a` keeps every entity of `b`, with its class, kind, id and auto-off flag. */
  ghost predicate KeepsIdentity(b: State, a: State)
  {
    forall k :: k in b.entities ==>
      && k in a.entities
      && a.entities[k].Kind() == b.entities[k].Kind()
      && a.entities[k].deviceId == b.entities[k].deviceId
      && a.entities[k].BinarySensor? == b.entities[k].BinarySensor?
      && (b.entities[k].BinarySensor? ==> a.entities[k].autoOff == b.entities[k].autoOff)
  }

  /** A reading removes no entity and changes no entity's identity. */
  lemma AcceptKeepsIdentity(s: State, rd: Reading, allowed: seq<string>, up: bool)
    ensures KeepsIdentity(s, Accept(s, rd, allowed, up).state)
  {
    if Admits(allowed, rd.deviceId) && EntityKey(rd.kind, rd.deviceId) in s.entities {
      UpdateInPlace(s, rd, allowed, up);
    }
  }

  /** One event removes no entity and changes no entity's identity. */
  lemma StepKeepsIdentity(s: State, e: Event)
    ensures KeepsIdentity(s, Step(s, e).state)
  {
    match e
    case Message(p, a, up) =>
      if p.Some? && Decode(p.value).Some? {
        IngestAccepts(s, p.value, a, up);
        AcceptKeepsIdentity(s, Decode(p.value).value, a, up);
      }
    case TimerFire(k, t) =>
  }

  /** Entities are never removed, and an entity's kind, id and auto-off flag
      never change after creation. */
  lemma {:induction false} RunKeepsIdentity(s: State, events: seq<Event>)
    ensures KeepsIdentity(s, Run(s, events))
    decreases |events|
  {
    if |events| > 0 {
      var s1 := Step(s, events[0]).state;
      StepKeepsIdentity(s, events[0]);
      RunKeepsIdentity(s1, events[1..]);
    }
  }

  /** Token `t` has been handed out and no entity holds it any more: the task
      it names was cancelled, superseded or has already run. */
  ghost predicate Stale(s: State, t: Token)
  {
    t < s.nextToken && forall k :: k in s.entities ==> s.entities[k].Pending() != Some(t)
  }

  /** A reading never hands a stale token back to an entity. */
  lemma AcceptKeepsStale(s: State, rd: Reading, allowed: seq<string>, up: bool, t: Token)
    requires Stale(s, t)
    ensures Stale(Accept(s, rd, allowed, up).state, t)
  {
    var key := EntityKey(rd.kind, rd.deviceId);
    if Admits(allowed, rd.deviceId) && key in s.entities {
      var r := Accept(s, rd, allowed, up).state;
      forall k | k in r.entities ensures r.entities[k].Pending() != Some(t) {
        if k != key {
          assert r.entities[k] == s.entities[k];
        }
      }
    }
  }

  /** No event brings a stale token back: new tasks always get fresh tokens. */
  lemma StepKeepsStale(s: State, e: Event, t: Token)
    requires Stale(s, t)
    ensures Stale(Step(s, e).state, t)
  {
    match e
    case Message(p, a, up) =>
      if p.Some? && Decode(p.value).Some? {
        IngestAccepts(s, p.value, a, up);
        AcceptKeepsStale(s, Decode(p.value).value, a, up, t);
      }
    case TimerFire(k, tk) =>
  }

  /** A cancelled or superseded task never switches anything off again,
      whatever events follow. */
  lemma {:induction false} RunKeepsStale(s: State, events: seq<Event>, t: Token)
    requires Stale(s, t)
    ensures Stale(Run(s, events), t)
    ensures forall key :: Fire(Run(s, events), key, t).state == Run(s, events)
    decreases |events|
  {
    if |events| > 0 {
      StepKeepsStale(s, events[0], t);
      RunKeepsStale(Step(s, events[0]).state, events[1..], t);
    }
  }

  /** The task a binary update replaces is stale from then on: no firing of
      it changes the state after any later sequence of events. */
  lemma SupersededTaskNeverFires(s: State, rd: Reading, allowed: seq<string>, up: bool, events: seq<Event>)
    requires Valid(s) && WellTyped(rd) && rd.kind == Binary
    requires Admits(allowed, rd.deviceId)
    requires EntityKey(Binary, rd.deviceId) in s.entities
    requires s.entities[EntityKey(Binary, rd.deviceId)].Pending().Some?
    ensures var t := s.entities[EntityKey(Binary, rd.deviceId)].Pending().value;
            var after := Run(Accept(s, rd, allowed, up).state, events);
            forall key :: Fire(after, key, t).state == after
  {
    var key := EntityKey(Binary, rd.deviceId);
    var d := s.entities[key];
    var t := d.Pending().value;
    assert key == EntityKey(d.Kind(), d.deviceId);
    EntityKeyInjective(d.Kind(), d.deviceId, Binary, rd.deviceId);
    assert DeviceOk(d, s.nextToken);
    var s' := Accept(s, rd, allowed, up).state;
    forall k | k in s'.entities ensures s'.entities[k].Pending() != Some(t) {
      if k != key {
        assert s'.entities[k] == s.entities[k];
      }
    }
    RunKeepsStale(s', events, t);
  }
}
