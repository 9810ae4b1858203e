/**
 The MQTT topics of the bridge, current and up to release 0.13, and the sweep
 that decides which retained topics are leftovers.
 */
module Layout {
  import opened Options
  import opened Text

  const STATUS := "status"
  const SET := "set"
  const ONLINE := "online"
  const ENABLED := "enabled"
  const ATTRIBUTES := "attributes"
  const SCHEDULER := "scheduler"
  const BRIDGE := "bridge"
  const STATE := "state"

  function Topic(root: string, levels: seq<string>): string
    requires levels != []
  {
    root + "/" + Join(levels, '/')
  }

  // --- the current layout -------------------------------------------------

  function SlotState(root: string, dev: string, emb: string, leaf: string): string { Topic(root, [STATUS, dev, emb, leaf]) }

  function SlotCommand(root: string, dev: string, emb: string, leaf: string): string { Topic(root, [SET, dev, emb, leaf]) }

  function SlotAttributes(root: string, dev: string, emb: string, leaf: string): string {
    Topic(root, [STATUS, dev, emb, leaf, ATTRIBUTES])
  }

  function Online(root: string, dev: string): string { Topic(root, [STATUS, dev, ONLINE]) }

  function Connected(root: string): string { Topic(root, ["connected"]) }

  function Info(root: string): string { Topic(root, ["info"]) }

  function CutPrefix(s: string, prefix: string): Option<string> {
    if prefix <= s then Some(s[|prefix|..]) else None
  }

  function ParseStatus(root: string, topic: string): Option<(string, string, string)> {
    match CutPrefix(topic, root + "/" + STATUS + "/")
    case None => None
    case Some(rest) =>
      var parts := Split(rest, '/');
      if |parts| == 3 && parts[0] != "" && parts[1] != "" && parts[2] != "" then Some((parts[0], parts[1], parts[2]))
      else if |parts| == 2 && parts[0] != "" && parts[1] == ONLINE then Some((parts[0], "", ONLINE))
      else None
  }

  predicate Clean(s: string) { s != "" && Level(s) }

  lemma CutJoined(prefix: string, rest: string)
    ensures CutPrefix(prefix + rest, prefix) == Some(rest)
  {
  }

  lemma StatusTopic(root: string, levels: seq<string>)
    requires levels != []
    ensures Topic(root, [STATUS] + levels) == (root + "/" + STATUS + "/") + Join(levels, '/')
  {
    assert ([STATUS] + levels)[1..] == levels;
    assert Join([STATUS] + levels, '/') == STATUS + ['/'] + Join(levels, '/');
  }

  /** ParseStatus reads back every slot's and every device's status topic. */
  lemma ParseReadsBack(root: string, dev: string, emb: string, leaf: string)
    requires Clean(dev) && Clean(emb) && Clean(leaf)
    ensures ParseStatus(root, SlotState(root, dev, emb, leaf)) == Some((dev, emb, leaf))
    ensures ParseStatus(root, Online(root, dev)) == Some((dev, "", ONLINE))
  {
    StatusTopic(root, [dev, emb, leaf]);
    StatusTopic(root, [dev, ONLINE]);
    assert [STATUS] + [dev, emb, leaf] == [STATUS, dev, emb, leaf] && [STATUS] + [dev, ONLINE] == [STATUS, dev, ONLINE];
    SplitJoin([dev, emb, leaf], '/');
    SplitJoin([dev, ONLINE], '/');
    CutJoined(root + "/" + STATUS + "/", Join([dev, emb, leaf], '/'));
    CutJoined(root + "/" + STATUS + "/", Join([dev, ONLINE], '/'));
  }

  /** Whatever ParseStatus accepts is the status topic of what it returns. */
  lemma ParseIsRendered(root: string, topic: string)
    requires ParseStatus(root, topic).Some?
    ensures var (dev, emb, leaf) := ParseStatus(root, topic).value;
      && Clean(dev)
      && if emb == "" then leaf == ONLINE && topic == Online(root, dev)
         else Clean(emb) && Clean(leaf) && topic == SlotState(root, dev, emb, leaf)
  {
    var prefix := root + "/" + STATUS + "/";
    var rest := CutPrefix(topic, prefix).value;
    var parts := Split(rest, '/');
    JoinSplit(rest, '/');
    assert topic == prefix + rest;
    StatusTopic(root, parts);
    if |parts| == 3 {
      assert [STATUS] + parts == [STATUS, parts[0], parts[1], parts[2]];
    } else {
      assert [STATUS] + parts == [STATUS, parts[0], parts[1]];
    }
  }

  // --- the 0.13 layout ----------------------------------------------------

  function BridgeStatus(root: string): string { Topic(root, [BRIDGE, STATUS]) }

  // One of the three topics of an old slot.
  function LegacyTopic(root: string, dev: string, emb: string, leaf: string, suffix: string): string {
    Topic(root, [dev, emb, leaf, suffix])
  }

  predicate IsLegacyLeaf(s: string) { s == STATE || s == SET || s == ATTRIBUTES }

  lemma TwoLevels(root: string, a: string, b: string)
    ensures Topic(root, [a, b]) == root + "/" + a + "/" + b
  {
    assert [a, b][1..] == [b];
    assert Join([a, b], '/') == a + ['/'] + b;
    assert root + "/" + (a + ['/'] + b) == root + "/" + a + "/" + b;
  }

  lemma OneMoreLevel(root: string, levels: seq<string>, last: string)
    requires levels != []
    ensures Topic(root, levels + [last]) == Topic(root, levels) + "/" + last
  {
    JoinLast(levels, last);
    assert root + "/" + (Join(levels, '/') + "/" + last) == (root + "/" + Join(levels, '/')) + "/" + last;
  }

  lemma {:induction false} JoinLast(levels: seq<string>, last: string)
    requires levels != []
    ensures Join(levels + [last], '/') == Join(levels, '/') + "/" + last
  {
    if |levels| == 1 {
      assert (levels + [last])[1..] == [last];
    } else {
      JoinLast(levels[1..], last);
      assert (levels + [last])[1..] == levels[1..] + [last];
    }
  }

  /** The topics of both layouts, spelled out. */
  lemma TopicText(root: string, dev: string, emb: string, leaf: string, suffix: string)
    ensures SlotState(root, dev, emb, leaf) == root + "/status/" + dev + "/" + emb + "/" + leaf
    ensures SlotCommand(root, dev, emb, leaf) == root + "/set/" + dev + "/" + emb + "/" + leaf
    ensures SlotAttributes(root, dev, emb, leaf) == root + "/status/" + dev + "/" + emb + "/" + leaf + "/attributes"
    ensures Online(root, dev) == root + "/status/" + dev + "/online"
    ensures Connected(root) == root + "/connected" && Info(root) == root + "/info"
    ensures BridgeStatus(root) == root + "/bridge/status"
    ensures LegacyTopic(root, dev, emb, leaf, suffix) == root + "/" + dev + "/" + emb + "/" + leaf + "/" + suffix
  {
    FourText(root, STATUS, dev, emb, leaf);
    FourText(root, SET, dev, emb, leaf);
    FourText(root, dev, emb, leaf, suffix);
    OneMoreLevel(root, [STATUS, dev, emb, leaf], ATTRIBUTES);
    TwoLevels(root, STATUS, dev);
    OneMoreLevel(root, [STATUS, dev], ONLINE);
    TwoLevels(root, BRIDGE, STATUS);
    hide Join;
    assert [STATUS, dev, emb, leaf] + [ATTRIBUTES] == [STATUS, dev, emb, leaf, ATTRIBUTES];
    assert [STATUS, dev] + [ONLINE] == [STATUS, dev, ONLINE];
    WordText(root, STATUS, dev);
    WordText(root, SET, dev);
    WordText(root, BRIDGE, STATUS);
  }

  lemma FourText(root: string, a: string, b: string, c: string, d: string)
    ensures Topic(root, [a, b, c, d]) == root + "/" + a + "/" + b + "/" + c + "/" + d
  {
    TwoLevels(root, a, b);
    OneMoreLevel(root, [a, b], c);
    OneMoreLevel(root, [a, b, c], d);
    assert [a, b] + [c] == [a, b, c] && [a, b, c] + [d] == [a, b, c, d];
  }

  // Literals run together.
  lemma WordText(root: string, a: string, b: string)
    ensures a == STATUS ==> root + "/" + a + "/" + b == root + "/status/" + b
    ensures a == SET ==> root + "/" + a + "/" + b == root + "/set/" + b
    ensures a == BRIDGE && b == STATUS ==> root + "/" + a + "/" + b == root + "/bridge/status"
  {
  }

  // --- the sweep ----------------------------------------------------------

  datatype Verdict = Keep | Legacy | Stale

  datatype Scope = Scope(
    owned: set<string>,
    schedules: set<string>,
    current: set<string>,
    cloudServed: set<string>,
    otherOwnerLeaves: set<string>)

  predicate StaleCandidate(s: Scope, topic: string, segs: seq<string>) {
    && |segs| >= 4 && segs[1] in s.owned && topic !in s.current
    && segs[1] in s.cloudServed && segs[2] != "" && segs[3] !in s.otherOwnerLeaves
  }

  function Classify(root: string, topic: string, s: Scope, isFunction: string -> bool): Verdict {
    match CutPrefix(topic, root + "/")
    case None => Keep
    case Some(rest) =>
      var segs := Split(rest, '/');
      if isFunction(segs[0]) then
        if segs[0] == STATUS && StaleCandidate(s, topic, segs) then Stale else Keep
      else if |segs| == 2 && segs[0] == BRIDGE && segs[1] == STATUS then Legacy
      else if |segs| == 4 && segs[0] == SCHEDULER && segs[1] in s.schedules
           && segs[2] == ENABLED && (segs[3] == STATE || segs[3] == SET) then Legacy
      else if |segs| == 4 && segs[0] in s.owned && segs[1] != "" && segs[2] != "" && IsLegacyLeaf(segs[3]) then Legacy
      else Keep
  }

  // Function names are never device ids, `bridge` or `scheduler`; ids are single levels.
  ghost predicate Proper(s: Scope, isFunction: string -> bool) {
    && isFunction(STATUS) && isFunction(SET) && !isFunction(BRIDGE) && !isFunction(SCHEDULER)
    && (forall id :: id in s.owned ==> Level(id) && !isFunction(id))
    && (forall id :: id in s.schedules ==> Level(id))
  }

  ghost predicate OldDeviceTopic(root: string, topic: string, s: Scope) {
    exists dev, emb, leaf, suffix ::
      && dev in s.owned && Clean(emb) && Clean(leaf)
      && (suffix == "state" || suffix == "set" || suffix == "attributes")
      && topic == LegacyTopic(root, dev, emb, leaf, suffix)
  }

  ghost predicate OldScheduleTopic(root: string, topic: string, s: Scope) {
    exists id, suffix ::
      && id in s.schedules && (suffix == "state" || suffix == "set")
      && topic == LegacyTopic(root, "scheduler", id, "enabled", suffix)
  }

  // What Classify sees of a topic under the root.
  lemma SplitTopic(root: string, levels: seq<string>)
    requires levels != [] && forall l :: l in levels ==> Level(l)
    ensures CutPrefix(Topic(root, levels), root + "/") == Some(Join(levels, '/'))
    ensures Split(Join(levels, '/'), '/') == levels
  {
    CutJoined(root + "/", Join(levels, '/'));
    SplitJoin(levels, '/');
  }

  lemma TopicOfSegments(root: string, topic: string)
    requires CutPrefix(topic, root + "/").Some?
    ensures topic == Topic(root, Split(CutPrefix(topic, root + "/").value, '/'))
  {
    JoinSplit(CutPrefix(topic, root + "/").value, '/');
  }

  lemma FourLevels(segs: seq<string>)
    requires |segs| == 4
    ensures segs == [segs[0], segs[1], segs[2], segs[3]]
  {
  }

  lemma JudgedLegacyIsOld(root: string, topic: string, s: Scope, isFunction: string -> bool)
    requires Classify(root, topic, s, isFunction) == Legacy
    ensures topic == BridgeStatus(root) || OldScheduleTopic(root, topic, s) || OldDeviceTopic(root, topic, s)
  {
    TopicOfSegments(root, topic);
    var segs := Split(CutPrefix(topic, root + "/").value, '/');
    hide Split, Join, Topic, CutPrefix;
    if |segs| == 2 {
      assert segs == [BRIDGE, STATUS];
    } else {
      FourLevels(segs);
      assert segs[1] in segs && segs[2] in segs;
      if segs[0] == SCHEDULER && segs[1] in s.schedules && segs[2] == ENABLED && (segs[3] == STATE || segs[3] == SET) {
        assert topic == LegacyTopic(root, SCHEDULER, segs[1], ENABLED, segs[3]);
      } else {
        assert topic == LegacyTopic(root, segs[0], segs[1], segs[2], segs[3]);
      }
    }
  }

  lemma LegacyWords(suffix: string)
    ensures IsLegacyLeaf(suffix) <==> suffix == "state" || suffix == "set" || suffix == "attributes"
    ensures IsLegacyLeaf(suffix) ==> Level(suffix)
    ensures Level(SCHEDULER) && Level(ENABLED)
  {
  }

  lemma OldIsJudgedLegacy(root: string, topic: string, s: Scope, isFunction: string -> bool)
    requires Proper(s, isFunction)
    requires topic == BridgeStatus(root) || OldScheduleTopic(root, topic, s) || OldDeviceTopic(root, topic, s)
    ensures Classify(root, topic, s, isFunction) == Legacy
  {
    if topic == BridgeStatus(root) {
      SplitTopic(root, [BRIDGE, STATUS]);
    } else if OldScheduleTopic(root, topic, s) {
      var id, suffix :| id in s.schedules && (suffix == "state" || suffix == "set")
        && topic == LegacyTopic(root, "scheduler", id, "enabled", suffix);
      LegacyWords(suffix);
      SplitTopic(root, [SCHEDULER, id, ENABLED, suffix]);
    } else {
      var dev, emb, leaf, suffix :| dev in s.owned && Clean(emb) && Clean(leaf)
        && (suffix == "state" || suffix == "set" || suffix == "attributes")
        && topic == LegacyTopic(root, dev, emb, leaf, suffix);
      LegacyWords(suffix);
      SplitTopic(root, [dev, emb, leaf, suffix]);
    }
  }

  /** A topic is judged legacy exactly when it is the old bridge status topic,
      an old switch topic of a schedule this instance holds, or an old state,
      set or attributes topic of a device it owns. */
  lemma LegacyExact(root: string, topic: string, s: Scope, isFunction: string -> bool)
    requires Proper(s, isFunction)
    ensures Classify(root, topic, s, isFunction) == Legacy
      <==> topic == BridgeStatus(root) || OldScheduleTopic(root, topic, s) || OldDeviceTopic(root, topic, s)
  {
    hide Classify, OldScheduleTopic, OldDeviceTopic, BridgeStatus, Proper;
    if Classify(root, topic, s, isFunction) == Legacy {
      JudgedLegacyIsOld(root, topic, s, isFunction);
    } else if topic == BridgeStatus(root) || OldScheduleTopic(root, topic, s) || OldDeviceTopic(root, topic, s) {
      OldIsJudgedLegacy(root, topic, s, isFunction);
    }
  }

  // Below a function name nothing is legacy, whatever the further levels are.
  lemma FunctionNotLegacy(root: string, f: string, rest: seq<string>, s: Scope, isFunction: string -> bool)
    requires Level(f) && isFunction(f) && rest != []
    ensures Classify(root, Topic(root, [f] + rest), s, isFunction) != Legacy
  {
    assert ([f] + rest)[1..] == rest;
    CutJoined(root + "/", Join([f] + rest, '/'));
    SplitCons(f, Join(rest, '/'), '/');
  }

  lemma ShortNotLegacy(root: string, word: string, s: Scope, isFunction: string -> bool)
    requires Level(word)
    ensures Classify(root, Topic(root, [word]), s, isFunction) != Legacy
  {
    SplitTopic(root, [word]);
  }

  /** No topic the current layout renders is ever judged legacy. */
  lemma CurrentNeverLegacy(root: string, dev: string, emb: string, leaf: string, s: Scope, isFunction: string -> bool)
    requires Proper(s, isFunction)
    ensures Classify(root, SlotState(root, dev, emb, leaf), s, isFunction) != Legacy
    ensures Classify(root, SlotCommand(root, dev, emb, leaf), s, isFunction) != Legacy
    ensures Classify(root, SlotAttributes(root, dev, emb, leaf), s, isFunction) != Legacy
    ensures Classify(root, Online(root, dev), s, isFunction) != Legacy
    ensures Classify(root, Connected(root), s, isFunction) != Legacy
    ensures Classify(root, Info(root), s, isFunction) != Legacy
  {
    hide Split, Join, CutPrefix, StaleCandidate, Classify, Topic;
    ShortNotLegacy(root, "connected", s, isFunction);
    ShortNotLegacy(root, "info", s, isFunction);
    FunctionNotLegacy(root, STATUS, [dev, emb, leaf], s, isFunction);
    FunctionNotLegacy(root, SET, [dev, emb, leaf], s, isFunction);
    FunctionNotLegacy(root, STATUS, [dev, emb, leaf, ATTRIBUTES], s, isFunction);
    FunctionNotLegacy(root, STATUS, [dev, ONLINE], s, isFunction);
    assert [STATUS] + [dev, emb, leaf] == [STATUS, dev, emb, leaf];
    assert [SET] + [dev, emb, leaf] == [SET, dev, emb, leaf];
    assert [STATUS] + [dev, emb, leaf, ATTRIBUTES] == [STATUS, dev, emb, leaf, ATTRIBUTES];
    assert [STATUS] + [dev, ONLINE] == [STATUS, dev, ONLINE];
  }

  /** A device's `online` item is never judged stale. */
  lemma OnlineNeverStale(root: string, dev: string, s: Scope, isFunction: string -> bool)
    requires Proper(s, isFunction) && Level(dev)
    ensures Classify(root, Online(root, dev), s, isFunction) == Keep
  {
    SplitTopic(root, [STATUS, dev, ONLINE]);
  }

  // A status topic at or below an item of a management point, of a device that the cloud serves, published by no one now.
  ghost predicate StaleItem(root: string, topic: string, s: Scope, dev: string, emb: string, leaf: string, below: seq<string>) {
    && Level(dev) && Clean(emb) && Level(leaf) && (forall l :: l in below ==> Level(l))
    && topic == Topic(root, [STATUS, dev, emb, leaf] + below)
    && dev in s.owned && dev in s.cloudServed && leaf !in s.otherOwnerLeaves && topic !in s.current
  }

  lemma JudgedStaleIsItem(root: string, topic: string, s: Scope, isFunction: string -> bool)
    requires Classify(root, topic, s, isFunction) == Stale
    ensures exists dev, emb, leaf, below :: StaleItem(root, topic, s, dev, emb, leaf, below)
  {
    TopicOfSegments(root, topic);
    var segs := Split(CutPrefix(topic, root + "/").value, '/');
    hide Split, Join, Topic, CutPrefix;
    assert segs == [STATUS, segs[1], segs[2], segs[3]] + segs[4..];
    assert segs[1] in segs && segs[2] in segs && segs[3] in segs;
    assert StaleItem(root, topic, s, segs[1], segs[2], segs[3], segs[4..]);
  }

  /** A topic is judged stale exactly when it is a status item below a
      management point of an owned device that the cloud serves, its leaf has
      no other owner, and this run does not publish it. */
  lemma StaleExact(root: string, topic: string, s: Scope, isFunction: string -> bool)
    requires Proper(s, isFunction)
    ensures Classify(root, topic, s, isFunction) == Stale <==>
      exists dev, emb, leaf, below :: StaleItem(root, topic, s, dev, emb, leaf, below)
  {
    if Classify(root, topic, s, isFunction) == Stale {
      JudgedStaleIsItem(root, topic, s, isFunction);
    }
    if dev, emb, leaf, below :| StaleItem(root, topic, s, dev, emb, leaf, below) {
      SplitTopic(root, [STATUS, dev, emb, leaf] + below);
    }
  }
}
