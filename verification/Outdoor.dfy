/**
 The group of indoor units on one outdoor unit: shared writes, resolution of
 heat/cool conflicts, and the suspend/restore of econo around a boost.
 */
module Outdoor {
  import opened Text
  import opened Validation

  const ON_OFF := "onOffMode"
  const OPERATION := "operationMode"
  const ECONO := "econoMode"
  const POWERFUL := "powerfulMode"

  // --- written values -----------------------------------------------------

  datatype Value = Flag(on: bool) | Str(text: string) | Other

  function LowerChar(c: char): char {
    if 'A' <= c <= 'Z' then c - 'A' + 'a' else c
  }

  function Lower(s: string): string {
    seq(|s|, i requires 0 <= i < |s| => LowerChar(s[i]))
  }

  function TrimSpace(s: string): string {
    if s != "" && IsSpace(s[0]) then TrimSpace(s[1..])
    else if s != "" && IsSpace(s[|s| - 1]) then TrimSpace(s[..|s| - 1])
    else s
  }

  predicate Truthy(v: Value) {
    match v
    case Flag(on) => on
    case Str(s) => Lower(TrimSpace(s)) == "on" || Lower(TrimSpace(s)) == "true" || Lower(TrimSpace(s)) == "1"
    case Other => false
  }

  // The word in any mixture of cases.
  predicate Spells(s: string, word: string) {
    |s| == |word| && forall i :: 0 <= i < |s| ==> s[i] == word[i] || ('a' <= word[i] <= 'z' && s[i] == word[i] - 'a' + 'A')
  }

  predicate TrueWord(s: string) { Spells(s, "on") || Spells(s, "true") || Spells(s, "1") }

  ghost predicate Padded(s: string, pre: string, core: string, post: string) {
    s == pre + core + post && Blank(pre) && Blank(post)
  }

  lemma LowerSpells(s: string, word: string)
    requires forall i :: 0 <= i < |word| ==> 'a' <= word[i] <= 'z' || word[i] == '1'
    ensures Lower(s) == word <==> Spells(s, word)
  {
    if Lower(s) == word {
      forall i | 0 <= i < |s| ensures s[i] == word[i] || ('a' <= word[i] <= 'z' && s[i] == word[i] - 'a' + 'A') {
        assert Lower(s)[i] == LowerChar(s[i]);
      }
    }
    if Spells(s, word) {
      forall i | 0 <= i < |s| ensures Lower(s)[i] == word[i] { assert s[i] == word[i] || s[i] == word[i] - 'a' + 'A'; }
    }
  }

  lemma {:induction false} TrimPads(s: string) returns (pre: string, post: string)
    ensures Padded(s, pre, TrimSpace(s), post)
    decreases |s|
  {
    hide IsSpace;
    if s != "" && IsSpace(s[0]) {
      pre, post := TrimPads(s[1..]);
      pre := [s[0]] + pre;
      assert s == [s[0]] + s[1..];
    } else if s != "" && IsSpace(s[|s| - 1]) {
      pre, post := TrimPads(s[..|s| - 1]);
      post := post + [s[|s| - 1]];
      assert s == s[..|s| - 1] + [s[|s| - 1]];
    } else {
      pre, post := "", "";
    }
  }

  lemma {:induction false} PaddedTrims(pre: string, core: string, post: string)
    requires Blank(pre) && Blank(post) && core != "" && !IsSpace(core[0]) && !IsSpace(core[|core| - 1])
    ensures TrimSpace(pre + core + post) == core
    decreases |pre| + |post|
  {
    hide IsSpace;
    var s := pre + core + post;
    if pre != "" {
      assert s[1..] == pre[1..] + core + post;
      PaddedTrims(pre[1..], core, post);
    } else if post != "" {
      assert s[0] == core[0] && s[..|s| - 1] == pre + core + post[..|post| - 1];
      PaddedTrims(pre, core, post[..|post| - 1]);
    } else {
      assert s == core;
    }
  }

  /** A text is true exactly when it is "on", "true" or "1", in any case,
      between any white space. */
  lemma TruthyExact(s: string)
    ensures Truthy(Str(s)) <==> exists pre, core, post :: Padded(s, pre, core, post) && TrueWord(core)
  {
    var pre, post := TrimPads(s);
    LowerSpells(TrimSpace(s), "on");
    LowerSpells(TrimSpace(s), "true");
    LowerSpells(TrimSpace(s), "1");
    hide Lower, TrimSpace;
    if pre, core, post :| Padded(s, pre, core, post) && TrueWord(core) {
      WordHasNoSpace(core);
      PaddedTrims(pre, core, post);
    }
  }

  lemma WordHasNoSpace(core: string)
    requires TrueWord(core)
    ensures core != "" && !IsSpace(core[0]) && !IsSpace(core[|core| - 1])
  {
  }

  // The compressor direction a mode demands; auto and fan-only demand none.
  datatype Family = Heating | Cooling | NoFamily

  function ModeFamily(mode: string): Family {
    if mode == "heating" then Heating
    else if mode == "cooling" || mode == "dry" then Cooling
    else NoFamily
  }

  // --- what the coordinator knows -----------------------------------------

  type Serials = map<string, string>

  function GroupKey(serials: Serials, dev: string): string {
    if dev in serials && serials[dev] != "" then serials[dev] else dev
  }

  // The devices on the same outdoor unit; a device with no known serial is alone.
  function Members(serials: Serials, dev: string): set<string> {
    if dev in serials && serials[dev] != "" then set d | d in serials && serials[d] == serials[dev] else {dev}
  }

  datatype Caches = Caches(power: map<string, bool>, mode: map<string, string>, econo: map<string, bool>)

  function ModeKey(dev: string, emb: string): string { dev + "/" + emb }

  lemma ModeKeyNamesDevice(dev: string, emb: string, dev': string, emb': string)
    requires Level(dev) && Level(dev') && ModeKey(dev, emb) == ModeKey(dev', emb')
    ensures dev == dev' && emb == emb'
  {
    assert dev + ['/'] + emb == ModeKey(dev, emb) && dev' + ['/'] + emb' == ModeKey(dev', emb');
    CutUnique(dev, emb, dev', emb', '/');
  }

  // A successful write of power, mode or econo is folded into the caches.
  function Noted(c: Caches, serials: Serials, dev: string, emb: string, characteristic: string, v: Value): Caches {
    if characteristic == ON_OFF then c.(power := c.power[dev := Truthy(v)])
    else if characteristic == OPERATION then
      if v.Str? && v.text != "" then c.(mode := c.mode[ModeKey(dev, emb) := v.text]) else c
    else if characteristic == ECONO then c.(econo := c.econo[GroupKey(serials, dev) := Truthy(v)])
    else c
  }

  /** What a taken write does to what is known: a power, mode or econo write is
      read back as written for its device, management point or group, and
      nothing else changes. */
  lemma NotedExact(c: Caches, serials: Serials, dev: string, emb: string, characteristic: string, v: Value)
    ensures var r := Noted(c, serials, dev, emb, characteristic, v);
      && (forall d :: if characteristic == "onOffMode" && d == dev then d in r.power && r.power[d] == Truthy(v)
                      else (d in r.power <==> d in c.power) && (d in r.power ==> r.power[d] == c.power[d]))
      && (forall k :: if characteristic == "operationMode" && v.Str? && v.text != "" && k == dev + "/" + emb then k in r.mode && r.mode[k] == v.text
                      else (k in r.mode <==> k in c.mode) && (k in r.mode ==> r.mode[k] == c.mode[k]))
      && (forall g :: if characteristic == "econoMode" && g == GroupKey(serials, dev) then g in r.econo && r.econo[g] == Truthy(v)
                      else (g in r.econo <==> g in c.econo) && (g in r.econo ==> r.econo[g] == c.econo[g]))
  {
  }

  // A write of one characteristic to the listed devices in turn.
  function NotedAll(c: Caches, serials: Serials, climate: map<string, string>, devs: seq<string>,
                    characteristic: string, v: Value): Caches
    requires forall d :: d in devs ==> d in climate
  {
    if devs == [] then c
    else
      var n := |devs| - 1;
      assert forall d :: d in devs[..n] ==> d in devs;
      Noted(NotedAll(c, serials, climate, devs[..n], characteristic, v), serials, devs[n], climate[devs[n]], characteristic, v)
  }

  /** The members of a group are the device itself and all that share its serial. */
  lemma MembersExact(serials: Serials, dev: string, d: string)
    ensures d in Members(serials, dev) <==>
      d == dev || (dev in serials && d in serials && serials[d] == serials[dev] != "")
  {
  }

  // Two modes that drive the compressor in different directions.
  predicate Opposite(a: string, b: string) {
    (a == "heating" && (b == "cooling" || b == "dry")) || (b == "heating" && (a == "cooling" || a == "dry"))
  }

  // A member the daemon knows to be running in the other compressor direction.
  predicate InConflict(c: Caches, climate: map<string, string>, dev: string, family: Family) {
    && dev in climate
    && dev in c.power && c.power[dev]
    && ModeKey(dev, climate[dev]) in c.mode
    && var f := ModeFamily(c.mode[ModeKey(dev, climate[dev])]); f != NoFamily && f != family
  }

  /** A member is in conflict with a commanded mode exactly when it is known to
      run, and to run in a mode of the opposite direction. */
  lemma ConflictExact(c: Caches, climate: map<string, string>, dev: string, mode: string)
    requires ModeFamily(mode) != NoFamily
    ensures InConflict(c, climate, dev, ModeFamily(mode)) <==>
      && dev in climate && dev in c.power && c.power[dev]
      && ModeKey(dev, climate[dev]) in c.mode && Opposite(mode, c.mode[ModeKey(dev, climate[dev])])
  {
  }

  // Another member of the group, known to run in a mode of the opposite direction.
  ghost predicate KnownOpposite(c: Caches, serials: Serials, climate: map<string, string>, origin: string, mode: string, d: string) {
    && d in Members(serials, origin) && d != origin
    && d in climate && d in c.power && c.power[d]
    && ModeKey(d, climate[d]) in c.mode && Opposite(mode, c.mode[ModeKey(d, climate[d])])
  }

  lemma NoFamilyNoOpposite(mode: string)
    requires ModeFamily(mode) == NoFamily
    ensures forall m :: !Opposite(mode, m)
  {
  }

  lemma NotedNone(c: Caches, serials: Serials, climate: map<string, string>, characteristic: string, v: Value)
    ensures NotedAll(c, serials, climate, [], characteristic, v) == c
  {
  }

  lemma NotedSnoc(c: Caches, serials: Serials, climate: map<string, string>, devs: seq<string>, dev: string,
                  characteristic: string, v: Value)
    requires (forall d :: d in devs ==> d in climate) && dev in climate
    ensures NotedAll(c, serials, climate, devs + [dev], characteristic, v)
         == Noted(NotedAll(c, serials, climate, devs, characteristic, v), serials, dev, climate[dev], characteristic, v)
  {
    assert (devs + [dev])[..|devs|] == devs;
  }

  // --- econo suspend ------------------------------------------------------

  datatype Suspend = Suspend(boosting: bool, pending: bool)

  const IDLE := Suspend(false, false)

  datatype Decision = NoAction | SuspendEcono | RestoreEcono

  // The edge-driven step taken under the lock for an observed snapshot.
  function Observe(s: Suspend, anyPowerful: bool, econoOn: bool): (Suspend, Decision) {
    if anyPowerful && !s.boosting then
      (Suspend(true, econoOn), if econoOn then SuspendEcono else NoAction)
    else if !anyPowerful && s.boosting then
      (Suspend(false, false), if s.pending then RestoreEcono else NoAction)
    else (s.(boosting := anyPowerful), NoAction)
  }

  function SuspendOf(suspends: map<string, Suspend>, group: string): Suspend {
    if group in suspends then suspends[group] else IDLE
  }

  // --- facts the methods rest on ------------------------------------------

  lemma AppendAscending(members: seq<string>, n: nat, written: seq<string>, dev: string)
    requires Ascending(members) && n < |members| && members[n] == dev
    requires Ascending(written) && forall d :: d in written ==> d in members[..n]
    ensures Ascending(written + [dev])
  {
    forall i | 0 <= i < |written| ensures Less(written[i], dev) {
      assert written[i] in members[..n];
      var k :| 0 <= k < n && members[..n][k] == written[i];
      assert members[k] == written[i];
    }
  }

  lemma NotYetWritten(members: seq<string>, n: nat, written: seq<string>)
    requires Ascending(members) && n < |members| && forall d :: d in written ==> d in members[..n]
    ensures members[n] !in written
  {
    if members[n] in written {
      var k :| 0 <= k < n && members[..n][k] == members[n];
      AscendingDistinct(members, k, n);
    }
  }

  // Mode writes to other devices do not change whether this one is in conflict.
  lemma {:induction false} OthersUntouched(c: Caches, serials: Serials, climate: map<string, string>, written: seq<string>,
                                           mode: string, dev: string, family: Family)
    requires forall d :: d in climate ==> Level(d)
    requires (forall d :: d in written ==> d in climate) && dev !in written
    ensures InConflict(NotedAll(c, serials, climate, written, OPERATION, Str(mode)), climate, dev, family)
        <==> InConflict(c, climate, dev, family)
  {
    if written != [] && dev in climate {
      var n := |written| - 1;
      OthersUntouched(c, serials, climate, written[..n], mode, dev, family);
      if ModeKey(dev, climate[dev]) == ModeKey(written[n], climate[written[n]]) {
        ModeKeyNamesDevice(dev, climate[dev], written[n], climate[written[n]]);
      }
    }
  }

  lemma {:induction false} EconoNotedAll(c: Caches, serials: Serials, climate: map<string, string>, devs: seq<string>, dev: string, v: Value)
    requires forall d :: d in devs ==> d in climate && d in Members(serials, dev)
    ensures var r := NotedAll(c, serials, climate, devs, ECONO, v);
      && r.power == c.power && r.mode == c.mode
      && r.econo == if devs == [] then c.econo else c.econo[GroupKey(serials, dev) := Truthy(v)]
  {
    hide Truthy, Noted;
    if devs == [] {
    } else {
      var n := |devs| - 1;
      assert devs[n] in devs && forall d :: d in devs[..n] ==> d in devs;
      EconoNotedAll(c, serials, climate, devs[..n], dev, v);
      SameGroup(serials, devs[n], dev);
      hide Members, GroupKey;
      NotedEcono(NotedAll(c, serials, climate, devs[..n], ECONO, v), serials, devs[n], climate[devs[n]], v);
    }
  }

  lemma NotedEcono(c: Caches, serials: Serials, dev: string, emb: string, v: Value)
    ensures Noted(c, serials, dev, emb, ECONO, v) == c.(econo := c.econo[GroupKey(serials, dev) := Truthy(v)])
  {
  }

  lemma SameGroup(serials: Serials, d: string, dev: string)
    requires d in Members(serials, dev)
    ensures GroupKey(serials, d) == GroupKey(serials, dev)
  {
  }

  lemma {:induction false} PowerfulNotNoted(c: Caches, serials: Serials, climate: map<string, string>, devs: seq<string>)
    requires forall d :: d in devs ==> d in climate
    ensures NotedAll(c, serials, climate, devs, POWERFUL, Str("off")) == c
  {
    if devs == [] {
    } else {
      assert forall d :: d in devs[..|devs| - 1] ==> d in devs;
      PowerfulNotNoted(c, serials, climate, devs[..|devs| - 1]);
    }
  }

  lemma OnOffTruth()
    ensures Truthy(Str("on")) && !Truthy(Str("off"))
  {
    assert Lower("on") == "on" && Lower("off") == "off";
  }

  // --- the writes sent ----------------------------------------------------

  /** One write handed to the backend, and whether it was taken. */
  datatype Issued = Issued(dev: string, emb: string, characteristic: string, value: Value, taken: bool)

  ghost function Issues(climate: map<string, string>, devs: seq<string>, characteristic: string, v: Value, accepts: string -> bool): (r: seq<Issued>)
    requires forall d :: d in devs ==> d in climate
    ensures |r| == |devs|
  {
    seq(|devs|, i requires 0 <= i < |devs| =>
      assert devs[i] in devs; Issued(devs[i], climate[devs[i]], characteristic, v, accepts(devs[i])))
  }

  lemma IssuesSnoc(climate: map<string, string>, devs: seq<string>, dev: string, characteristic: string, v: Value, accepts: string -> bool)
    requires (forall d :: d in devs ==> d in climate) && dev in climate
    ensures Issues(climate, devs + [dev], characteristic, v, accepts)
         == Issues(climate, devs, characteristic, v, accepts) + [Issued(dev, climate[dev], characteristic, v, accepts(dev))]
  {
  }

  // The device's own write, if its management point is known.
  ghost function Own(climate: map<string, string>, dev: string, characteristic: string, v: Value, accepts: string -> bool): seq<Issued> {
    if dev in climate then [Issued(dev, climate[dev], characteristic, v, accepts(dev))] else []
  }

  // After `before`, one write to each of the devices, in order, and no other.
  ghost predicate Fanned(before: seq<Issued>, after: seq<Issued>, climate: map<string, string>, devs: set<string>,
                         characteristic: string, v: Value, accepts: string -> bool)
  {
    exists order: seq<string> ::
      && Ascending(order) && (forall d :: d in order <==> d in devs) && (forall d :: d in order ==> d in climate)
      && after == before + Issues(climate, order, characteristic, v, accepts)
  }

  lemma NothingFanned(log: seq<Issued>, climate: map<string, string>, characteristic: string, v: Value, accepts: string -> bool)
    ensures Fanned(log, log, climate, {}, characteristic, v, accepts)
  {
    var none: seq<string> := [];
    assert log == log + Issues(climate, none, characteristic, v, accepts);
  }

  // The other members of the group with a known management point.
  ghost function Others(serials: Serials, climate: map<string, string>, origin: string): set<string> {
    set d | d in Members(serials, origin) && d != origin && d in climate
  }

  ghost function OthersOpposite(c: Caches, serials: Serials, climate: map<string, string>, origin: string, mode: string): set<string> {
    set d | d in climate && KnownOpposite(c, serials, climate, origin, mode, d)
  }

  // --- the coordinator ----------------------------------------------------

  class Coordinator {
    var serials: Serials
    var climate: map<string, string>
    var caches: Caches
    var suspends: map<string, Suspend>
    ghost var issued: seq<Issued>
    const modeSync: bool
    const exclusive: bool

    constructor (modeSync: bool, exclusive: bool)
      ensures serials == map[] && climate == map[] && caches == Caches(map[], map[], map[]) && suspends == map[] && issued == []
      ensures this.modeSync == modeSync && this.exclusive == exclusive
    {
      serials, climate, caches, suspends := map[], map[], Caches(map[], map[], map[]), map[];
      issued := [];
      this.modeSync, this.exclusive := modeSync, exclusive;
    }

    method GroupMembers(dev: string) returns (members: seq<string>)
      ensures Ascending(members)
      ensures forall d :: d in members <==> d in Members(serials, dev)
    {
      members := SortSet(Members(serials, dev));
    }

    // `accepted` says whether the backend took the write.
    method SetCharacteristic(dev: string, emb: string, characteristic: string, v: Value, accepted: bool)
      modifies this`caches, this`issued
      ensures issued == old(issued) + [Issued(dev, emb, characteristic, v, accepted)]
      ensures caches == if accepted then Noted(old(caches), serials, dev, emb, characteristic, v) else old(caches)
    {
      issued := issued + [Issued(dev, emb, characteristic, v, accepted)];
      if accepted {
        caches := Noted(caches, serials, dev, emb, characteristic, v);
      }
    }

    /** Writes one characteristic to every other reachable member of the group. */
    method FanOutToGroup(origin: string, characteristic: string, v: Value, accepts: string -> bool) returns (written: seq<string>)
      modifies this`caches, this`issued
      ensures Fanned(old(issued), issued, climate, Others(serials, climate, origin), characteristic, v, accepts)
      ensures Ascending(written)
      ensures forall d :: d in written <==> d in Members(serials, origin) && d != origin && d in climate && accepts(d)
      ensures caches == NotedAll(old(caches), serials, climate, written, characteristic, v)
    {
      hide NotedAll, Noted, Issues, Members, Less;
      NotedNone(caches, serials, climate, characteristic, v);
      written := [];
      ghost var tried: seq<string> := [];
      var members := GroupMembers(origin);
      for n := 0 to |members|
        invariant Ascending(written) && Ascending(tried)
        invariant forall d :: d in tried <==> d in members[..n] && d != origin && d in climate
        invariant issued == old(issued) + Issues(climate, tried, characteristic, v, accepts)
        invariant forall d :: d in written <==> d in members[..n] && d != origin && d in climate && accepts(d)
        invariant caches == NotedAll(old(caches), serials, climate, written, characteristic, v)
      {
        var dev := members[n];
        assert members[..n + 1] == members[..n] + [dev];
        if dev != origin && dev in climate {
          SetCharacteristic(dev, climate[dev], characteristic, v, accepts(dev));
          AppendAscending(members, n, tried, dev);
          IssuesSnoc(climate, tried, dev, characteristic, v, accepts);
          tried := tried + [dev];
          if accepts(dev) {
            AppendAscending(members, n, written, dev);
            NotedSnoc(old(caches), serials, climate, written, dev, characteristic, v);
            written := written + [dev];
          }
        }
      }
      assert members[..|members|] == members;
    }

    /** Switches the members that run in the other direction to the mode just
        commanded, last write wins. Off or unknown members are not written. */
    method SyncModeToGroup(origin: string, daikinMode: string, accepts: string -> bool) returns (written: seq<string>)
      requires forall d :: d in climate ==> Level(d)
      modifies this`caches, this`issued
      ensures if modeSync
        then Fanned(old(issued), issued, climate, OthersOpposite(old(caches), serials, climate, origin, daikinMode), OPERATION, Str(daikinMode), accepts)
        else issued == old(issued)
      ensures forall d :: d in written <==> modeSync && KnownOpposite(old(caches), serials, climate, origin, daikinMode, d) && accepts(d)
      ensures forall d :: d in written ==> d in climate
      ensures Ascending(written)
      ensures caches == NotedAll(old(caches), serials, climate, written, OPERATION, Str(daikinMode))
    {
      hide NotedAll, Noted, Issues, Members, Less;
      NotedNone(caches, serials, climate, OPERATION, Str(daikinMode));
      written := [];
      var family := ModeFamily(daikinMode);
      if !modeSync || family == NoFamily {
        if family == NoFamily {
          NoFamilyNoOpposite(daikinMode);
          NothingFanned(issued, climate, OPERATION, Str(daikinMode), accepts);
        }
        return;
      }
      forall d { ConflictExact(caches, climate, d, daikinMode); }
      hide Opposite, ModeFamily, InConflict;
      var members := GroupMembers(origin);
      ghost var tried: seq<string> := [];
      for n := 0 to |members|
        invariant Ascending(written) && (forall d :: d in written ==> d in climate)
        invariant Ascending(tried) && forall d :: d in tried <==> d in members[..n] && d != origin && InConflict(old(caches), climate, d, family)
        invariant issued == old(issued) + Issues(climate, tried, OPERATION, Str(daikinMode), accepts)
        invariant forall d :: d in written <==>
          d in members[..n] && d != origin && InConflict(old(caches), climate, d, family) && accepts(d)
        invariant caches == NotedAll(old(caches), serials, climate, written, OPERATION, Str(daikinMode))
      {
        var dev := members[n];
        assert members[..n + 1] == members[..n] + [dev];
        NotYetWritten(members, n, written);
        OthersUntouched(old(caches), serials, climate, written, daikinMode, dev, family);
        if dev != origin && InConflict(caches, climate, dev, family) {
          SetCharacteristic(dev, climate[dev], OPERATION, Str(daikinMode), accepts(dev));
          AppendAscending(members, n, tried, dev);
          IssuesSnoc(climate, tried, dev, OPERATION, Str(daikinMode), accepts);
          tried := tried + [dev];
          if accepts(dev) {
            AppendAscending(members, n, written, dev);
            NotedSnoc(old(caches), serials, climate, written, dev, OPERATION, Str(daikinMode));
            written := written + [dev];
          }
        }
      }
      assert members[..|members|] == members;
    }

    // The step of the econo machine that runs under the lock.
    method ObserveEcono(dev: string, anyPowerful: bool, econoOn: bool) returns (action: Decision)
      modifies this`suspends
      ensures var g := GroupKey(serials, dev);
        var (next, decided) := Observe(SuspendOf(old(suspends), g), anyPowerful, econoOn);
        action == decided && suspends == old(suspends)[g := next]
    {
      var group := GroupKey(serials, dev);
      var prev := SuspendOf(suspends, group);
      var next := prev.(boosting := anyPowerful);
      action := NoAction;
      if anyPowerful && !prev.boosting {
        if econoOn {
          next := next.(pending := true);
          action := SuspendEcono;
        } else {
          next := next.(pending := false);
        }
      } else if !anyPowerful && prev.boosting {
        if prev.pending {
          action := RestoreEcono;
        }
        next := next.(pending := false);
      }
      suspends := suspends[group := next];
    }

    /** Writes econo to the device and to every other member of its group. */
    method SetGroupEcono(dev: string, v: Value, accepts: string -> bool) returns (written: seq<string>)
      modifies this`caches, this`issued
      ensures Fanned(old(issued) + Own(climate, dev, ECONO, v, accepts), issued, climate, Others(serials, climate, dev), ECONO, v, accepts)
      ensures forall d :: d in written <==> (d in Members(serials, dev) || d == dev) && d in climate && accepts(d)
      ensures caches.power == old(caches).power && caches.mode == old(caches).mode
      ensures caches.econo == if written == [] then old(caches).econo else old(caches).econo[GroupKey(serials, dev) := Truthy(v)]
    {
      hide NotedAll, Noted, Truthy, Members, Less, Fanned, Ascending;
      written := [];
      NotedEcono(caches, serials, dev, if dev in climate then climate[dev] else "", v);
      if dev in climate {
        SetCharacteristic(dev, climate[dev], ECONO, v, accepts(dev));
        if accepts(dev) {
          written := [dev];
        }
      }
      assert issued == old(issued) + Own(climate, dev, ECONO, v, accepts);
      ghost var mid := caches;
      var others := FanOutToGroup(dev, ECONO, v, accepts);
      EconoNotedAll(mid, serials, climate, others, dev, v);
      written := written + others;
    }

    /** Suspends econo when a boost begins with econo on, and restores it when
        the boost that suspended it ends. */
    method ReconcileEconoSuspend(dev: string, anyPowerful: bool, econoOn: bool, accepts: string -> bool)
      returns (action: Decision, written: seq<string>)
      modifies this`suspends, this`caches, this`issued
      ensures if action == NoAction then issued == old(issued) else
        var v := Str(if action == RestoreEcono then "on" else "off");
        Fanned(old(issued) + Own(climate, dev, ECONO, v, accepts), issued, climate, Others(serials, climate, dev), ECONO, v, accepts)
      ensures !exclusive ==> action == NoAction && suspends == old(suspends)
      ensures exclusive ==> var g := GroupKey(serials, dev);
        var (next, decided) := Observe(SuspendOf(old(suspends), g), anyPowerful, econoOn);
        action == decided && suspends == old(suspends)[g := next]
      ensures action == NoAction ==> written == [] && caches == old(caches)
      ensures action != NoAction ==> forall d :: d in written <==>
        (d in Members(serials, dev) || d == dev) && d in climate && accepts(d)
      ensures action != NoAction && written != [] ==>
        caches.econo == old(caches).econo[GroupKey(serials, dev) := (action == RestoreEcono)]
    {
      action, written := NoAction, [];
      if !exclusive {
        return;
      }
      action := ObserveEcono(dev, anyPowerful, econoOn);
      OnOffTruth();
      match action
      case SuspendEcono => written := SetGroupEcono(dev, Str("off"), accepts);
      case RestoreEcono => written := SetGroupEcono(dev, Str("on"), accepts);
      case NoAction =>
    }

    /** Turning econo on clears powerful on the whole group and forgets a
        pending restore; nothing happens when the clearing write is refused. */
    method EnforceMutualExclusive(dev: string, emb: string, characteristic: string, v: Value,
                                  accepted: bool, accepts: string -> bool)
      returns (written: seq<string>)
      modifies this`suspends, this`caches, this`issued
      ensures if !(exclusive && characteristic == ECONO && Truthy(v)) then issued == old(issued)
        else if !accepted then issued == old(issued) + [Issued(dev, emb, POWERFUL, Str("off"), false)]
        else Fanned(old(issued) + [Issued(dev, emb, POWERFUL, Str("off"), true)], issued, climate,
                    Others(serials, climate, dev), POWERFUL, Str("off"), accepts)
      ensures var fires := exclusive && characteristic == ECONO && Truthy(v) && accepted;
        && suspends == (if fires then old(suspends)[GroupKey(serials, dev) := IDLE] else old(suspends))
        && (!fires ==> written == [])
        && (fires ==> forall d :: d in written <==> d == dev || (d in Members(serials, dev) && d in climate && accepts(d)))
      ensures caches == old(caches)
    {
      written := [];
      if !exclusive || characteristic != ECONO || !Truthy(v) {
        return;
      }
      SetCharacteristic(dev, emb, POWERFUL, Str("off"), accepted);
      if !accepted {
        return;
      }
      var others := FanOutToGroup(dev, POWERFUL, Str("off"), accepts);
      PowerfulNotNoted(caches, serials, climate, others);
      PowerfulNotNoted(old(caches), serials, climate, others);
      written := [dev] + others;
      suspends := suspends[GroupKey(serials, dev) := IDLE];
    }
  }
}
