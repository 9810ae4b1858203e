/**
 What a block's action makes the daemon write, the bounded queue the writes go
 through, and the fingerprint that stands for them in the engine's cache.
 */
module Signatures {
  import opened Options
  import opened Text
  import opened ScheduleModel
  import opened Validation

  // --- writes -------------------------------------------------------------

  datatype Write = Write(topic: string, payload: string)

  datatype Request = Request(deviceID: string, embeddedID: string, write: Write)

  const HVAC_MODE_TOPIC := "hvac_mode"
  const SETPOINT_TOPIC := "temperature_setpoint"
  const SILENT_TOPIC := "outdoor_silent"
  const ECONO_TOPIC := "econo_mode"
  const DEMAND_TOPIC := "demand_control"

  function HVACPayload(a: Action): string {
    if a.power == POWER_OFF then "off" else a.hvacMode
  }

  function OnOff(v: bool): string { if v then "on" else "off" }

  function IndoorWrites(a: Action): seq<Write> {
    [Write(HVAC_MODE_TOPIC, HVACPayload(a))]
    + (if a.power == POWER_ON && a.setpoint.Some? then [Write(SETPOINT_TOPIC, a.setpoint.value.Render())] else [])
  }

  function OutdoorWrites(a: Action): seq<Write> {
    (if a.outdoorSilent.Some? then [Write(SILENT_TOPIC, OnOff(a.outdoorSilent.value))] else [])
    + (if a.econo.Some? then [Write(ECONO_TOPIC, OnOff(a.econo.value))] else [])
    + (if a.demand.Some? then [Write(DEMAND_TOPIC, a.demand.value.Render())] else [])
  }

  function Addressed(dev: string, emb: string, writes: seq<Write>): (reqs: seq<Request>)
    ensures |reqs| == |writes|
    ensures forall i :: 0 <= i < |reqs| ==> reqs[i].deviceID == dev && reqs[i].embeddedID == emb && reqs[i].write == writes[i]
  {
    seq(|writes|, i requires 0 <= i < |writes| => Request(dev, emb, writes[i]))
  }

  datatype Outcome = Applied | DeviceUnknown | Failed

  // Where an action for this target goes: the unit itself, or the first known member of the outdoor group.
  function Receiver(target: Target, climate: map<string, string>, groups: map<string, seq<string>>): Option<(string, string)> {
    if target.outdoorSerial != "" then
      if target.outdoorSerial in groups then FirstKnown(groups[target.outdoorSerial], climate) else None
    else if target.embeddedID != "" then Some((target.deviceID, target.embeddedID))
    else if target.deviceID in climate then Some((target.deviceID, climate[target.deviceID]))
    else None
  }

  function FirstKnown(members: seq<string>, climate: map<string, string>): Option<(string, string)> {
    if members == [] then None
    else if members[0] in climate then Some((members[0], climate[members[0]]))
    else FirstKnown(members[1..], climate)
  }

  function WritesFor(target: Target, a: Action): seq<Write> {
    if target.outdoorSerial != "" then OutdoorWrites(a) else IndoorWrites(a)
  }

  // dev, with management point emb, is listed at i, and nothing before it has one.
  ghost predicate FirstAt(members: seq<string>, climate: map<string, string>, i: nat, dev: string, emb: string) {
    && i < |members| && members[i] == dev && dev in climate && climate[dev] == emb
    && forall j :: 0 <= j < i ==> members[j] !in climate
  }

  // The unit an action for the target goes to.
  ghost predicate Reaches(target: Target, climate: map<string, string>, groups: map<string, seq<string>>, dev: string, emb: string) {
    if target.outdoorSerial != "" then
      && target.outdoorSerial in groups
      && exists i: nat :: FirstAt(groups[target.outdoorSerial], climate, i, dev, emb)
    else
      dev == target.deviceID && emb == (if target.embeddedID != "" then target.embeddedID
                                        else if dev in climate then climate[dev] else "")
      && (target.embeddedID != "" || dev in climate)
  }

  lemma {:induction false} FirstKnownIs(members: seq<string>, climate: map<string, string>, dev: string, emb: string)
    ensures FirstKnown(members, climate) == Some((dev, emb)) <==> exists i: nat :: FirstAt(members, climate, i, dev, emb)
  {
    if members == [] {
    } else if members[0] in climate {
      if dev == members[0] && emb == climate[dev] { assert FirstAt(members, climate, 0, dev, emb); }
    } else {
      var rest := members[1..];
      FirstKnownIs(rest, climate, dev, emb);
      if i: nat :| FirstAt(rest, climate, i, dev, emb) {
        forall j | 0 <= j < i + 1 ensures members[j] !in climate { if j > 0 { assert rest[j - 1] == members[j]; } }
        assert FirstAt(members, climate, i + 1, dev, emb);
      }
      if i: nat :| FirstAt(members, climate, i, dev, emb) {
        assert i > 0;
        assert rest[i - 1] == dev && FirstAt(rest, climate, i - 1, dev, emb);
      }
    }
  }

  /** An indoor action goes to the unit named, at the management point named or
      else the one known for it; an outdoor one to the first member of the
      group with a known management point; to nothing if there is none. */
  lemma ReceiverExact(target: Target, climate: map<string, string>, groups: map<string, seq<string>>, dev: string, emb: string)
    ensures Receiver(target, climate, groups) == Some((dev, emb)) <==> Reaches(target, climate, groups, dev, emb)
  {
    if target.outdoorSerial != "" && target.outdoorSerial in groups {
      FirstKnownIs(groups[target.outdoorSerial], climate, dev, emb);
      hide FirstKnown;
    }
  }

  /** An indoor action writes the mode, or "off", and then, for a unit that is
      on, the setpoint. */
  lemma IndoorWritesExact(a: Action)
    requires ValidIndoor(a)
    ensures var ws := IndoorWrites(a);
      && |ws| == (if a.power == "on" && a.setpoint.Some? then 2 else 1)
      && ws[0] == Write("hvac_mode", if a.power == "on" then a.hvacMode else "off")
      && (|ws| == 2 ==> ws[1] == Write("temperature_setpoint", a.setpoint.value.Render()))
  {
  }

  ghost predicate SaysFlag(w: Write, topic: string, v: Option<bool>) {
    v.Some? && w == Write(topic, if v.value then "on" else "off")
  }

  /** An outdoor action writes exactly the settings it has: silent, econo and
      demand, in this order, each at most once. */
  lemma OutdoorWritesExact(a: Action)
    ensures forall w :: w in OutdoorWrites(a) <==>
      || SaysFlag(w, "outdoor_silent", a.outdoorSilent) || SaysFlag(w, "econo_mode", a.econo)
      || (a.demand.Some? && w == Write("demand_control", a.demand.value.Render()))
    ensures forall i, j :: 0 <= i < j < |OutdoorWrites(a)| ==>
      var t, u := OutdoorWrites(a)[i].topic, OutdoorWrites(a)[j].topic;
      (t == "outdoor_silent" && u != t) || (t == "econo_mode" && u == "demand_control")
  {
    hide Decimal.Render;
    assert SILENT_TOPIC[0] == 'o' && ECONO_TOPIC[0] == 'e' && DEMAND_TOPIC[0] == 'd';
    var silent := if a.outdoorSilent.Some? then [Write(SILENT_TOPIC, OnOff(a.outdoorSilent.value))] else [];
    var econo := if a.econo.Some? then [Write(ECONO_TOPIC, OnOff(a.econo.value))] else [];
    var demand := if a.demand.Some? then [Write(DEMAND_TOPIC, a.demand.value.Render())] else [];
    assert OutdoorWrites(a) == silent + econo + demand;
    forall i | 0 <= i < |OutdoorWrites(a)|
      ensures OutdoorWrites(a)[i].topic ==
        if i < |silent| then SILENT_TOPIC else if i < |silent| + |econo| then ECONO_TOPIC else DEMAND_TOPIC
    {
    }
  }

  /** In a valid schedule an indoor target gets the writes of an indoor action
      and an outdoor target those of an outdoor one, and always some. */
  lemma WritesFitTarget(kind: string, target: Target, a: Action)
    requires ValidTarget(kind, target) && ValidAction(kind, a)
    ensures WritesFor(target, a) != []
    ensures forall w :: w in WritesFor(target, a) ==>
      if kind == "outdoor" then w.topic == "outdoor_silent" || w.topic == "econo_mode" || w.topic == "demand_control"
      else w.topic == "hvac_mode" || w.topic == "temperature_setpoint"
  {
    hide Decimal.Render;
  }

  /** The coordinator's write queue: bounded, filled without blocking. */
  class WriteQueue {
    var queued: seq<Request>
    const capacity: nat

    constructor (capacity: nat)
      ensures this.capacity == capacity && queued == []
    {
      this.capacity := capacity;
      queued := [];
    }

    predicate Fits()
      reads this
    {
      |queued| <= capacity
    }

    method Enqueue(req: Request) returns (ok: bool)
      requires Fits()
      modifies this
      ensures Fits() && ok == (|old(queued)| < capacity)
      ensures queued == if ok then old(queued) + [req] else old(queued)
    {
      ok := |queued| < capacity;
      if ok {
        queued := queued + [req];
      }
    }

    // Pushes the requests one by one until one is refused.
    method EnqueueAll(reqs: seq<Request>) returns (ok: bool)
      requires Fits()
      modifies this
      ensures Fits() && ok == (|old(queued)| + |reqs| <= capacity)
      ensures ok ==> queued == old(queued) + reqs
      ensures !ok ==> |queued| == capacity && queued == old(queued) + reqs[..capacity - |old(queued)|]
    {
      for i := 0 to |reqs|
        invariant Fits() && queued == old(queued) + reqs[..i]
      {
        ok := Enqueue(reqs[i]);
        if !ok { return; }
      }
      ok := true;
    }

    /** Either the whole list of writes is queued, in order, or the device is
        not known yet and nothing is, or the queue filled up on the way. */
    method ApplySchedule(target: Target, a: Action, climate: map<string, string>, groups: map<string, seq<string>>)
      returns (r: Outcome)
      requires Fits()
      modifies this
      ensures Fits()
      ensures r == DeviceUnknown <==> Receiver(target, climate, groups).None?
      ensures r == DeviceUnknown ==> queued == old(queued)
      ensures r == Applied ==> var (dev, emb) := Receiver(target, climate, groups).value;
        queued == old(queued) + Addressed(dev, emb, WritesFor(target, a))
      ensures r == Failed ==> |queued| == capacity < |old(queued)| + |WritesFor(target, a)|
      ensures r == Failed ==> var (dev, emb) := Receiver(target, climate, groups).value;
        queued == old(queued) + Addressed(dev, emb, WritesFor(target, a))[..capacity - |old(queued)|]
    {
      match Receiver(target, climate, groups)
      case None => r := DeviceUnknown;
      case Some((dev, emb)) =>
        var writes := WritesFor(target, a);
        var ok := EnqueueAll(Addressed(dev, emb, writes));
        r := if ok then Applied else Failed;
    }
  }

  // --- fingerprints -------------------------------------------------------

  function Tagged(b: string, tag: string, value: string): string {
    b + (if b == "" then "" else ";") + tag + "=" + value
  }

  function FirstPart(a: Action): string {
    if a.power == POWER_OFF then "off"
    else if a.power == POWER_ON then
      "on/" + a.hvacMode + (if a.setpoint.Some? then "/" + a.setpoint.value.Render() else "")
    else ""
  }

  function Signature(a: Action): string {
    var b0 := FirstPart(a);
    var b1 := if a.outdoorSilent.Some? then Tagged(b0, "silent", OnOff(a.outdoorSilent.value)) else b0;
    var b2 := if a.econo.Some? then Tagged(b1, "econo", OnOff(a.econo.value)) else b1;
    if a.demand.Some? then Tagged(b2, "demand", a.demand.value.Render()) else b2
  }

  // The fingerprint as the program builds it, piece by piece.
  method BuildSignature(a: Action) returns (b: string)
    ensures b == Signature(a)
  {
    hide Decimal.Render;
    b := "";
    if a.power == POWER_OFF {
      b := b + "off";
    } else if a.power == POWER_ON {
      b := b + "on/";
      b := b + a.hvacMode;
      if a.setpoint.Some? {
        b := b + "/";
        b := b + a.setpoint.value.Render();
      }
    }
    assert b == FirstPart(a) by { if a.power == POWER_ON && a.setpoint.Some? { assert "on/" + a.hvacMode + "/" + a.setpoint.value.Render() == FirstPart(a); } }
    if a.outdoorSilent.Some? {
      b := WriteTagged(b, "silent", OnOff(a.outdoorSilent.value));
    }
    if a.econo.Some? {
      b := WriteTagged(b, "econo", OnOff(a.econo.value));
    }
    if a.demand.Some? {
      b := WriteTagged(b, "demand", a.demand.value.Render());
    }
  }

  method WriteTagged(b: string, tag: string, value: string) returns (r: string)
    ensures r == Tagged(b, tag, value)
  {
    r := b;
    assert r + "" == r;
    if r != "" {
      r := r + ";";
    }
    r := r + tag + "=" + value;
  }

  predicate Plain(s: string) {
    '/' !in s && ';' !in s && '=' !in s
  }

  lemma RenderPlain(d: Number)
    ensures Plain(d.Render())
  {
    assert forall c :: c in Itoa(d.whole) ==> IsDigit(c);
  }

  function Fraction(d: Number): string { if d.fraction == [] then "" else "." + d.fraction }

  function Magnitude(d: Number): string { Itoa(d.whole) + Fraction(d) }

  lemma RenderSign(d: Number)
    ensures d.Render() == if d.negative then "-" + Magnitude(d) else Magnitude(d)
    ensures d.Render()[0] == '-' <==> d.negative
    ensures d.negative ==> d.Render()[1..] == Magnitude(d)
  {
    var sign := if d.negative then "-" else "";
    assert d.Render() == sign + Itoa(d.whole) + Fraction(d) == sign + Magnitude(d);
  }

  // Different values render differently, so a payload names its value.
  lemma RenderInjective(d: Number, e: Number)
    requires d.Render() == e.Render()
    ensures d == e
  {
    RenderSign(d);
    RenderSign(e);
    hide Decimal.Render;
    assert Magnitude(d) == Magnitude(e);
    LeadDigitsOf(Itoa(d.whole), Fraction(d));
    LeadDigitsOf(Itoa(e.whole), Fraction(e));
    ItoaInjective(d.whole, e.whole);
    assert Fraction(d) == Magnitude(d)[|Itoa(d.whole)|..] && Fraction(e) == Magnitude(e)[|Itoa(e.whole)|..];
    assert d.fraction == (if Fraction(d) == "" then "" else Fraction(d)[1..]);
    assert e.fraction == (if Fraction(e) == "" then "" else Fraction(e)[1..]);
  }

  function LeadDigits(s: string): string {
    if s != [] && IsDigit(s[0]) then [s[0]] + LeadDigits(s[1..]) else []
  }

  lemma {:induction false} LeadDigitsOf(p: string, f: string)
    requires forall i :: 0 <= i < |p| ==> IsDigit(p[i])
    requires f == "" || !IsDigit(f[0])
    ensures LeadDigits(p + f) == p
  {
    if p == [] {
      assert p + f == f;
    } else {
      LeadDigitsOf(p[1..], f);
      assert (p + f)[1..] == p[1..] + f;
    }
  }

  lemma ModePlain(m: string)
    requires ValidMode(m)
    ensures Plain(m) && m != "off"
  {
  }

  function Tail(sp: Option<Number>): string {
    match sp
    case None => ""
    case Some(v) => "/" + v.Render()
  }

  lemma SplitTail(m: string, sp: Option<Number>)
    requires '/' !in m
    ensures Split(m + Tail(sp), '/') == if sp.Some? then [m, sp.value.Render()] else [m]
  {
    match sp
    case None =>
      assert m + "" == m;
      SplitPart(m, '/');
    case Some(v) =>
      RenderPlain(v);
      hide Decimal.Render;
      assert m + Tail(sp) == m + ['/'] + v.Render();
      SplitCons(m, v.Render(), '/');
      SplitPart(v.Render(), '/');
  }

  lemma TailSplits(m: string, sp: Option<Number>, n: string, sq: Option<Number>)
    requires '/' !in m && '/' !in n && m + Tail(sp) == n + Tail(sq)
    ensures m == n && Tail(sp) == Tail(sq)
  {
    SplitTail(m, sp);
    SplitTail(n, sq);
    hide Decimal.Render, Split;
    var parts := Split(m + Tail(sp), '/');
    assert parts[0] == m == n;
    assert |parts| == 2 ==> sp.value.Render() == parts[1] == sq.value.Render();
  }

  lemma IndoorSignature(a: Action)
    requires ValidIndoor(a)
    ensures Signature(a) == if a.power == POWER_OFF then "off" else "on/" + (a.hvacMode + Tail(a.setpoint))
  {
    if a.power == POWER_ON {
      assert "on/" + a.hvacMode + Tail(a.setpoint) == "on/" + (a.hvacMode + Tail(a.setpoint));
    }
  }

  function Setpoint(a: Action): Option<Number> {
    if a.power == POWER_ON then a.setpoint else None
  }

  lemma IndoorWritesEqual(a: Action, b: Action)
    ensures IndoorWrites(a) == IndoorWrites(b) <==> HVACPayload(a) == HVACPayload(b) && Tail(Setpoint(a)) == Tail(Setpoint(b))
  {
    hide Decimal.Render, HVACPayload;
    TailIsSetpoint(Setpoint(a), Setpoint(b));
    var v, w := IndoorWrites(a), IndoorWrites(b);
    if v == w {
      assert v[0] == w[0];
      if |v| == 2 { assert v[1] == w[1]; }
    }
  }

  /** Two valid indoor actions have the same fingerprint exactly when they write the same. */
  lemma IndoorSignatureExact(a: Action, b: Action)
    requires ValidIndoor(a) && ValidIndoor(b)
    ensures Signature(a) == Signature(b) <==> IndoorWrites(a) == IndoorWrites(b)
  {
    IndoorSignature(a);
    IndoorSignature(b);
    IndoorWritesEqual(a, b);
    hide Signature, IndoorWrites, Tail;
    var s, t := Signature(a), Signature(b);
    if a.power == POWER_ON { ModePlain(a.hvacMode); assert s[1] == 'n'; }
    if b.power == POWER_ON { ModePlain(b.hvacMode); assert t[1] == 'n'; }
    hide ValidMode;
    if a.power == POWER_ON && b.power == POWER_ON && s == t {
      assert s[3..] == a.hvacMode + Tail(a.setpoint) && t[3..] == b.hvacMode + Tail(b.setpoint);
      TailSplits(a.hvacMode, a.setpoint, b.hvacMode, b.setpoint);
    }
  }

  lemma TailIsSetpoint(sp: Option<Number>, sq: Option<Number>)
    ensures Tail(sp) == Tail(sq) <==> sp.Some? == sq.Some? && (sp.Some? ==> sp.value.Render() == sq.value.Render())
  {
    if sp.Some? && sq.Some? {
      assert Tail(sp)[1..] == sp.value.Render() && Tail(sq)[1..] == sq.value.Render();
    }
  }

  // --- outdoor fingerprints -----------------------------------------------

  predicate OutdoorTopic(t: string) {
    t == SILENT_TOPIC || t == ECONO_TOPIC || t == DEMAND_TOPIC
  }

  function Tag(topic: string): string {
    if topic == SILENT_TOPIC then "silent" else if topic == ECONO_TOPIC then "econo" else "demand"
  }

  function PartOf(w: Write): string { Tag(w.topic) + "=" + w.payload }

  function Parts(writes: seq<Write>): seq<string> {
    seq(|writes|, i requires 0 <= i < |writes| => PartOf(writes[i]))
  }

  function JoinAll(parts: seq<string>): string {
    if parts == [] then "" else Join(parts, ';')
  }

  lemma {:induction false} JoinSnoc(parts: seq<string>, x: string)
    requires parts != []
    ensures Join(parts + [x], ';') == Join(parts, ';') + ";" + x
  {
    if |parts| > 1 {
      JoinSnoc(parts[1..], x);
      assert (parts + [x])[1..] == parts[1..] + [x];
    } else {
      assert (parts + [x])[1..] == [x];
    }
  }

  lemma JoinNonempty(parts: seq<string>)
    requires parts != [] && parts[0] != ""
    ensures Join(parts, ';') != "" && Join(parts, ';')[0] == parts[0][0]
  {
  }

  // Appending a tagged value to the builder appends one part.
  lemma TaggedJoins(writes: seq<Write>, w: Write)
    ensures Tagged(JoinAll(Parts(writes)), Tag(w.topic), w.payload) == JoinAll(Parts(writes + [w]))
  {
    var ps, x := Parts(writes), PartOf(w);
    assert Parts(writes + [w]) == ps + [x];
    if ps == [] {
      assert "" + "" + Tag(w.topic) + "=" + w.payload == x;
    } else {
      JoinSnoc(ps, x);
      JoinNonempty(ps);
      var b := Join(ps, ';');
      assert b + ";" + Tag(w.topic) + "=" + w.payload == b + ";" + x;
    }
  }

  lemma NothingJoins()
    ensures JoinAll(Parts([])) == ""
  {
  }

  lemma OutdoorSignature(a: Action)
    requires ValidOutdoor(a)
    ensures Signature(a) == JoinAll(Parts(OutdoorWrites(a))) && OutdoorWrites(a) != []
  {
    NothingJoins();
    hide Tagged, JoinAll, Parts, OnOff, Decimal.Render;
    var w0: seq<Write> := [];
    var w1 := if a.outdoorSilent.Some? then w0 + [Write(SILENT_TOPIC, OnOff(a.outdoorSilent.value))] else w0;
    var w2 := if a.econo.Some? then w1 + [Write(ECONO_TOPIC, OnOff(a.econo.value))] else w1;
    if a.outdoorSilent.Some? { TaggedJoins(w0, Write(SILENT_TOPIC, OnOff(a.outdoorSilent.value))); }
    if a.econo.Some? { TaggedJoins(w1, Write(ECONO_TOPIC, OnOff(a.econo.value))); }
    if a.demand.Some? { TaggedJoins(w2, Write(DEMAND_TOPIC, a.demand.value.Render())); }
    assert OutdoorWrites(a) == if a.demand.Some? then w2 + [Write(DEMAND_TOPIC, a.demand.value.Render())] else w2;
  }

  lemma PartInjective(v: Write, w: Write)
    requires OutdoorTopic(v.topic) && OutdoorTopic(w.topic) && PartOf(v) == PartOf(w)
    ensures v == w
  {
    assert Tag(v.topic) + ['='] + v.payload == PartOf(v) && Tag(w.topic) + ['='] + w.payload == PartOf(w);
    CutUnique(Tag(v.topic), v.payload, Tag(w.topic), w.payload, '=');
    assert "silent"[0] != "econo"[0] && "econo"[0] != "demand"[0] && "silent"[0] != "demand"[0];
  }

  lemma OutdoorWritesPlain(a: Action, w: Write)
    requires w in OutdoorWrites(a)
    ensures OutdoorTopic(w.topic) && ';' !in PartOf(w)
  {
    if a.demand.Some? { RenderPlain(a.demand.value); }
  }

  /** Two valid outdoor actions have the same fingerprint exactly when they write the same. */
  lemma OutdoorSignatureExact(a: Action, b: Action)
    requires ValidOutdoor(a) && ValidOutdoor(b)
    ensures Signature(a) == Signature(b) <==> OutdoorWrites(a) == OutdoorWrites(b)
  {
    OutdoorSignature(a);
    OutdoorSignature(b);
    var v, w := OutdoorWrites(a), OutdoorWrites(b);
    hide Signature, OutdoorWrites, PartOf, OutdoorTopic, ValidOutdoor, JoinAll, Parts;
    forall x | x in v ensures OutdoorTopic(x.topic) && ';' !in PartOf(x) { OutdoorWritesPlain(a, x); }
    forall x | x in w ensures OutdoorTopic(x.topic) && ';' !in PartOf(x) { OutdoorWritesPlain(b, x); }
    if Signature(a) == Signature(b) { JoinedEqual(v, w); }
  }

  lemma JoinedEqual(v: seq<Write>, w: seq<Write>)
    requires v != [] && w != [] && JoinAll(Parts(v)) == JoinAll(Parts(w))
    requires forall x :: x in v ==> OutdoorTopic(x.topic) && ';' !in PartOf(x)
    requires forall x :: x in w ==> OutdoorTopic(x.topic) && ';' !in PartOf(x)
    ensures v == w
  {
    hide PartOf, OutdoorTopic, Split, Join;
    SplitJoin(Parts(v), ';');
    SplitJoin(Parts(w), ';');
    assert Parts(v) == Parts(w);
    forall i | 0 <= i < |v| ensures v[i] == w[i] {
      assert PartOf(v[i]) == Parts(v)[i] == Parts(w)[i] == PartOf(w[i]);
      assert v[i] in v && w[i] in w;
      PartInjective(v[i], w[i]);
    }
  }

  /** Fingerprints of the two kinds never coincide, and none is empty: an
      absent cache entry is never taken for an action in force. */
  lemma SignaturesApart(a: Action, b: Action)
    requires ValidIndoor(a) && ValidOutdoor(b)
    ensures Signature(a) != "" && Signature(b) != "" && Signature(a) != Signature(b)
  {
    IndoorSignature(a);
    OutdoorSignature(b);
    var ps := Parts(OutdoorWrites(b));
    OutdoorWritesPlain(b, OutdoorWrites(b)[0]);
    assert ps[0] == PartOf(OutdoorWrites(b)[0]);
    JoinNonempty(ps);
  }
}
