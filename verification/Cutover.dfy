/** Moving an event type from the shared broker topic to a dedicated one, as a sequence of applied
    configurations of the broker and recorder modules. */
module Cutover {
  import opened Ingress
  import opened Options
  import opened OverrideTable
  import opened Text
  import opened TopicNames

  // ----- One configuration -----

  /** `kinds` is every event type that may ever get a dedicated topic.  `dedicated` holds the broker's
      dedicated_topics with their route flags; `types`, `extra` and `drop` are the recorder's types,
      extra_brokers and drop_shared_types. */
  datatype Config = Config(
    names: Naming, regions: set<string>, kinds: set<string>, types: set<string>,
    dedicated: map<string, bool>, extra: map<string, map<string, string>>, drop: set<string>)

  ghost predicate Named(c: Config) {
    CollisionFree(c.names, c.regions, c.kinds)
  }

  /** The recorder covers the types it records, each of which it could also record from a dedicated
      topic; extra_brokers is wired to the broker's `dedicated` output. */
  ghost predicate Wired(c: Config) {
    && c.types <= c.kinds && c.dedicated.Keys <= c.kinds
    && c.extra.Keys <= c.types && c.extra.Keys <= c.dedicated.Keys
    && (forall p: Pair :: HasExtra(c, p) <==> p.kind in c.extra && p.region in c.regions)
    && (forall p: Pair :: HasExtra(c, p) ==> c.extra[p.kind][p.region] == c.names.dedicated(p))
  }

  /** extra_brokers has a topic for the pair. */
  predicate HasExtra(c: Config, p: Pair) {
    p.kind in c.extra && p.region in c.extra[p.kind]
  }

  /** The broker's `dedicated` output for one type. */
  function DedicatedOutput(n: Naming, regions: set<string>, kind: string): map<string, string> {
    map r | r in regions :: n.dedicated(Pair(r, kind))
  }

  /** The recorder's Terraform preconditions (with method = "trigger"). */
  predicate Preconditions(c: Config) {
    && c.extra.Keys <= c.types
    && c.drop <= c.extra.Keys
    && forall t :: t in c.drop ==> c.regions <= (if t in c.extra then c.extra[t].Keys else {})
  }

  /** A wired type has a dedicated topic in every region. */
  lemma WiredCoversRegions(c: Config, kind: string)
    requires Wired(c) && kind in c.extra
    ensures c.extra[kind].Keys == c.regions
  {
    forall r
      ensures r in c.extra[kind] <==> r in c.regions
    {
      assert HasExtra(c, Pair(r, kind)) <==> r in c.extra[kind];
    }
  }

  // ----- The broker's side: where an event goes -----

  /** The routed types and their topics in one region. */
  function RoutedTopics(c: Config, region: string): Overrides {
    map t | t in c.dedicated && c.dedicated[t] :: c.names.dedicated(Pair(region, t))
  }

  predicate IsRouted(c: Config, kind: string) {
    kind in c.dedicated && c.dedicated[kind]
  }

  /** The environment of the region's ingress: no table at all when nothing is routed. */
  function Environment(entries: seq<Entry>): Option<string> {
    if entries == [] then None else Some(Render(entries))
  }

  /** The overrides the ingress runs with. */
  function ReadOverrides(env: Option<string>): Option<Overrides> {
    if env.None? then Some(map[]) else Parse(env.value)
  }

  function TopicOf(c: Config, overrides: Overrides, kind: string, region: string): string {
    if kind in overrides then overrides[kind] else c.names.shared(region)
  }

  function EventTopic(c: Config, kind: string, region: string): string {
    TopicOf(c, RoutedTopics(c, region), kind, region)
  }

  /** The ingress routes by exactly the configured map: rendering it and reading it back is lossless. */
  lemma IngressReadsTheRoutes(c: Config, region: string, entries: seq<Entry>)
    requires Lists(entries, RoutedTopics(c, region))
    requires forall i :: 0 <= i < |entries| ==> OverrideTable.WellFormed(entries[i])
    ensures ReadOverrides(Environment(entries)) == Some(RoutedTopics(c, region))
  {
    if entries == [] {
      assert RoutedTopics(c, region) == map[];
    } else {
      TableRoundTrip(entries, RoutedTopics(c, region));
    }
  }

  predicate IsTopicByte(c: char) {
    'A' <= c <= 'Z' || 'a' <= c <= 'z' || '0' <= c <= '9' || c == '.' || c == '_' || c == '-'
  }

  predicate IsTopicText(s: string) {
    forall c :: c in s ==> IsTopicByte(c)
  }

  /** The validation of the keys of dedicated_topics. */
  predicate ValidKind(kind: string) {
    && 0 < |kind| <= 100 && IsTopicText(kind)
    && kind[0] !in "._-" && kind[|kind| - 1] !in "._-"
  }

  lemma TopicTextIsTrimmed(s: string)
    requires IsTopicText(s)
    ensures Trimmed(s) && ',' !in s && ':' !in s
  {
    if s != "" {
      assert s[0] in s && s[|s| - 1] in s;
    }
  }

  lemma {:induction false} DashedIsTopicText(kind: string)
    requires IsTopicText(kind)
    ensures IsTopicText(Dashed(kind))
  {
    if kind == "" {
    } else {
      assert kind[0] in kind;
      DashedIsTopicText(kind[1..]);
    }
  }

  lemma ValidEntry(name: string, p: Pair)
    requires ValidKind(p.kind) && IsTopicText(name) && IsTopicText(p.region)
    ensures OverrideTable.WellFormed(Entry(p.kind, DedicatedTopic(name, p)))
  {
    DashedIsTopicText(p.kind);
    TopicTextIsTrimmed(p.kind);
    TopicTextIsTrimmed(DedicatedTopic(name, p));
  }

  /** Types that pass the module's own validation are always routed as configured, and the ingress can start:
      its table is read and names no empty topic. */
  lemma ValidatedRoutesAreRead(name: string, c: Config, region: string, entries: seq<Entry>)
    requires c.names == TerraformNames(name) && IsTopicText(name) && IsTopicText(region)
    requires forall t :: t in c.dedicated ==> ValidKind(t)
    requires Lists(entries, RoutedTopics(c, region))
    ensures ReadOverrides(Environment(entries)) == Some(RoutedTopics(c, region))
    ensures forall t :: t in RoutedTopics(c, region) ==> RoutedTopics(c, region)[t] != ""
    ensures forall i :: 0 <= i < |entries| ==> OverrideTable.WellFormed(entries[i])
  {
    forall i | 0 <= i < |entries|
      ensures OverrideTable.WellFormed(entries[i])
    {
      ValidEntry(name, Pair(region, entries[i].kind));
    }
    IngressReadsTheRoutes(c, region, entries);
  }

  /** The publishers an ingress of the region runs with: built from the rendered table it finds in its
      environment. */
  ghost predicate Serves(
    c: Config, region: string, entries: seq<Entry>, def: Publisher, byType: map<string, Publisher>,
    all: seq<Publisher>)
    reads all
  {
    && Lists(entries, RoutedTopics(c, region))
    && (forall i :: 0 <= i < |entries| ==> OverrideTable.WellFormed(entries[i]))
    && ReadOverrides(Environment(entries)).Some?
    && Built(c.names.shared(region), ReadOverrides(Environment(entries)).value, def, byType, all)
  }

  /** Such an ingress publishes every event on the topic the configuration gives it. */
  lemma PublishedOnConfiguredTopic(
    c: Config, region: string, entries: seq<Entry>, def: Publisher, byType: map<string, Publisher>,
    all: seq<Publisher>, kind: string)
    requires Serves(c, region, entries, def, byType, all)
    ensures PublisherForType(byType, def, kind).topic == EventTopic(c, kind, region)
  {
    IngressReadsTheRoutes(c, region, entries);
    RoutingFollowsTopics(c.names.shared(region), RoutedTopics(c, region), def, byType, all, kind, kind);
  }

  // ----- The recorder's side: which triggers exist -----

  /** A subscription of the recorder to `topic`, filtered to one event type. */
  datatype Trigger = Shared(key: string, topic: string, kind: string) | Extra(key: string, topic: string, kind: string)

  ghost function RegionalPairs(c: Config): set<Pair> {
    set r, t | r in c.regions && t in c.types :: Pair(r, t)
  }

  ghost function SharedPairs(c: Config): set<Pair> {
    set p | p in RegionalPairs(c) && p.kind !in c.drop
  }

  ghost function ExtraPairs(c: Config): set<Pair> {
    set t, r | t in c.extra && r in c.extra[t] :: Pair(r, t)
  }

  lemma ExtraPairsAreWired(c: Config)
    requires Wired(c)
    ensures forall p :: p in ExtraPairs(c) <==> HasExtra(c, p)
    ensures ExtraPairs(c) <= RegionalPairs(c)
  {
  }

  /** merge([for region ... for type ... : "${region}-${type}" => ...]...): one entry a pair, as long
      as keys do not collide. */
  ghost function Keyed(c: Config, pairs: set<Pair>): map<string, Pair>
    requires Named(c) && forall p :: p in pairs ==> In(p, c.regions, c.kinds)
  {
    map p | p in pairs :: c.names.key(p) := p
  }

  ghost function SharedRegionalTypes(c: Config): map<string, Pair>
    requires Named(c) && Wired(c)
  {
    Keyed(c, SharedPairs(c))
  }

  ghost function ExtraRegionalTypes(c: Config): map<string, Pair>
    requires Named(c) && Wired(c)
  {
    ExtraPairsAreWired(c);
    Keyed(c, ExtraPairs(c))
  }

  ghost function Triggers(c: Config): set<Trigger>
    requires Named(c) && Wired(c)
  {
    var shared, extra := SharedRegionalTypes(c), ExtraRegionalTypes(c);
    (set k | k in shared :: Shared(k, c.names.shared(shared[k].region), shared[k].kind)) +
    (set k | k in extra :: Extra(k, c.extra[extra[k].kind][extra[k].region], extra[k].kind))
  }

  ghost function Matching(c: Config, topic: string, kind: string): set<Trigger>
    requires Named(c) && Wired(c)
  {
    set tr | tr in Triggers(c) && tr.topic == topic && tr.kind == kind
  }

  /** An event of type `kind` published in `region` reaches the recorder exactly once. */
  ghost predicate RecordedOnce(c: Config, kind: string, region: string)
    requires Named(c) && Wired(c)
  {
    |Matching(c, EventTopic(c, kind, region), kind)| == 1
  }

  lemma KeyedEntry(c: Config, pairs: set<Pair>, k: string)
    requires Named(c) && (forall p :: p in pairs ==> In(p, c.regions, c.kinds)) && k in Keyed(c, pairs)
    ensures Keyed(c, pairs)[k] in pairs && k == c.names.key(Keyed(c, pairs)[k])
  {
  }

  lemma KeyedEntryOf(c: Config, pairs: set<Pair>, p: Pair)
    requires Named(c) && (forall p :: p in pairs ==> In(p, c.regions, c.kinds)) && p in pairs
    ensures c.names.key(p) in Keyed(c, pairs) && Keyed(c, pairs)[c.names.key(p)] == p
  {
  }

  /** Every trigger listens for a recorded type in some region, on the shared topic or the dedicated one. */
  lemma TriggerShape(c: Config, tr: Trigger) returns (p: Pair)
    requires Named(c) && Wired(c) && tr in Triggers(c)
    ensures p in RegionalPairs(c) && tr.kind == p.kind && tr.key == c.names.key(p)
    ensures tr.Shared? ==> tr.topic == c.names.shared(p.region) && tr.kind !in c.drop
    ensures tr.Extra? ==> tr.topic == c.names.dedicated(p) && tr.kind in c.extra
  {
    var shared, extra := SharedRegionalTypes(c), ExtraRegionalTypes(c);
    ExtraPairsAreWired(c);
    if tr.Shared? {
      assert tr.key in shared;
      KeyedEntry(c, SharedPairs(c), tr.key);
      p := shared[tr.key];
    } else {
      assert tr.key in extra;
      KeyedEntry(c, ExtraPairs(c), tr.key);
      p := extra[tr.key];
    }
  }

  lemma SharedTriggerExists(c: Config, p: Pair)
    requires Named(c) && Wired(c) && p in RegionalPairs(c) && p.kind !in c.drop
    ensures Shared(c.names.key(p), c.names.shared(p.region), p.kind) in Triggers(c)
  {
    KeyedEntryOf(c, SharedPairs(c), p);
    assert SharedRegionalTypes(c)[c.names.key(p)] == p;
  }

  lemma ExtraTriggerExists(c: Config, p: Pair)
    requires Named(c) && Wired(c) && p in RegionalPairs(c) && p.kind in c.extra
    ensures Extra(c.names.key(p), c.names.dedicated(p), p.kind) in Triggers(c)
  {
    ExtraPairsAreWired(c);
    assert HasExtra(c, p);
    KeyedEntryOf(c, ExtraPairs(c), p);
    assert ExtraRegionalTypes(c)[c.names.key(p)] == p;
  }

  lemma MatchingOnShared(c: Config, p: Pair)
    requires Named(c) && Wired(c) && p in RegionalPairs(c)
    ensures var topic := c.names.shared(p.region);
            Matching(c, topic, p.kind) ==
            if p.kind in c.drop then {} else {Shared(c.names.key(p), topic, p.kind)}
  {
    forall tr | tr in Matching(c, c.names.shared(p.region), p.kind)
      ensures p.kind !in c.drop && tr == Shared(c.names.key(p), c.names.shared(p.region), p.kind)
    {
      var q := TriggerShape(c, tr);
    }
    if p.kind !in c.drop {
      SharedTriggerExists(c, p);
    }
  }

  lemma MatchingOnDedicated(c: Config, p: Pair)
    requires Named(c) && Wired(c) && p in RegionalPairs(c)
    ensures var topic := c.names.dedicated(p);
            Matching(c, topic, p.kind) ==
            if p.kind in c.extra then {Extra(c.names.key(p), topic, p.kind)} else {}
  {
    forall tr | tr in Matching(c, c.names.dedicated(p), p.kind)
      ensures p.kind in c.extra && tr == Extra(c.names.key(p), c.names.dedicated(p), p.kind)
    {
      var q := TriggerShape(c, tr);
    }
    if p.kind in c.extra {
      ExtraTriggerExists(c, p);
    }
  }

  /** Exactly when a configuration records a type in every region, once: a routed type needs its
      dedicated triggers, and a type that is not routed must not be dropped from the shared topic. */
  lemma RecordedOnceIff(c: Config, kind: string, region: string)
    requires Named(c) && Wired(c) && kind in c.types && region in c.regions
    ensures RecordedOnce(c, kind, region) <==> if IsRouted(c, kind) then kind in c.extra else kind !in c.drop
  {
    var p := Pair(region, kind);
    MatchingOnShared(c, p);
    MatchingOnDedicated(c, p);
    assert |{Shared(c.names.key(p), c.names.shared(region), kind)}| == 1;
    assert |{Extra(c.names.key(p), c.names.dedicated(p), kind)}| == 1;
  }

  /** Terraform's own checks do not enforce the order: routing a type before the recorder has its
      dedicated triggers, or dropping it before it is routed, passes them and loses its events. */
  lemma PreconditionsAreNotEnough(c: Config, kind: string, region: string)
    requires Named(c) && Wired(c) && Preconditions(c)
    requires kind in c.types && region in c.regions && kind !in c.drop
    ensures kind !in c.extra && kind in c.dedicated ==>
              var early := c.(dedicated := c.dedicated[kind := true]);
              Named(early) && Wired(early) && Preconditions(early) && !RecordedOnce(early, kind, region)
    ensures kind in c.extra && !IsRouted(c, kind) ==>
              var early := c.(drop := c.drop + {kind});
              Named(early) && Wired(early) && Preconditions(early) && !RecordedOnce(early, kind, region)
  {
    if kind !in c.extra && kind in c.dedicated {
      var early := c.(dedicated := c.dedicated[kind := true]);
      RecordedOnceIff(early, kind, region);
    }
    if kind in c.extra && !IsRouted(c, kind) {
      var early := c.(drop := c.drop + {kind});
      WiredCoversRegions(early, kind);
      RecordedOnceIff(early, kind, region);
    }
  }

  // ----- The documented order of applies, and its way back -----

  datatype Step =
    | Declare(kind: string)         // dedicated_topics entry with route = false
    | AddExtra(kind: string)        // extra_brokers entry wired to the dedicated output
    | Route(kind: string)           // route = true
    | DropShared(kind: string)      // drop_shared_types entry
    | RestoreShared(kind: string)
    | Unroute(kind: string)
    | RemoveExtra(kind: string)
    | Undeclare(kind: string)

  predicate Enabled(c: Config, step: Step) {
    var t := step.kind;
    match step
    case Declare(_) => t in c.kinds && t !in c.dedicated
    case AddExtra(_) => t in c.types && t in c.dedicated
    case Route(_) => t in c.dedicated && (t in c.types ==> t in c.extra)
    case DropShared(_) => t in c.extra && IsRouted(c, t)
    case RestoreShared(_) => true
    case Unroute(_) => t in c.dedicated && t !in c.drop
    case RemoveExtra(_) => t !in c.drop && !IsRouted(c, t)
    case Undeclare(_) => t !in c.extra && !IsRouted(c, t)
  }

  function Apply(c: Config, step: Step): Config {
    var t := step.kind;
    match step
    case Declare(_) => c.(dedicated := c.dedicated[t := false])
    case AddExtra(_) => c.(extra := c.extra[t := DedicatedOutput(c.names, c.regions, t)])
    case Route(_) => c.(dedicated := c.dedicated[t := true])
    case DropShared(_) => c.(drop := c.drop + {t})
    case RestoreShared(_) => c.(drop := c.drop - {t})
    case Unroute(_) => c.(dedicated := c.dedicated[t := false])
    case RemoveExtra(_) => c.(extra := c.extra - {t})
    case Undeclare(_) => c.(dedicated := c.dedicated - {t})
  }

  predicate Legal(c: Config, run: seq<Step>)
    decreases |run|
  {
    run == [] || (Enabled(c, run[0]) && Legal(Apply(c, run[0]), run[1..]))
  }

  function After(c: Config, run: seq<Step>): Config
    decreases |run|
  {
    if run == [] then c else After(Apply(c, run[0]), run[1..])
  }

  /** Before any cutover. */
  ghost predicate Init(c: Config) {
    Named(c) && c.types <= c.kinds && c.dedicated == map[] && c.extra == map[] && c.drop == {}
  }

  ghost predicate Inv(c: Config) {
    && Named(c) && Wired(c) && Preconditions(c)
    && (forall t :: t in c.types && IsRouted(c, t) ==> t in c.extra)
    && (forall t :: t in c.drop ==> IsRouted(c, t))
  }

  lemma StepKeepsInv(c: Config, step: Step)
    requires Inv(c) && Enabled(c, step)
    ensures Inv(Apply(c, step))
  {
    var c' := Apply(c, step);
    forall t | t in c'.extra
      ensures c'.extra[t].Keys == c'.regions
    {
      WiredCoversRegions(c', t);
    }
  }

  lemma {:induction false} RunKeepsInv(c: Config, run: seq<Step>)
    requires Inv(c) && Legal(c, run)
    ensures Inv(After(c, run))
    decreases |run|
  {
    if run == [] {
    } else {
      StepKeepsInv(c, run[0]);
      RunKeepsInv(Apply(c, run[0]), run[1..]);
    }
  }

  /** Along every run of the documented steps, forwards or back, for any number of types at once: the
      preconditions hold, and whatever ingress serves a region, each event of a recorded type that it publishes
      there meets exactly one trigger of the recorder. */
  lemma CutoverNeverLosesAType(
    init: Config, run: seq<Step>, kind: string, region: string, entries: seq<Entry>, def: Publisher,
    byType: map<string, Publisher>, all: seq<Publisher>)
    requires Init(init) && Legal(init, run) && kind in init.types && region in init.regions
    requires Serves(After(init, run), region, entries, def, byType, all)
    ensures var c := After(init, run);
            && Named(c) && Wired(c) && Preconditions(c) && RecordedOnce(c, kind, region)
            && |Matching(c, PublisherForType(byType, def, kind).topic, kind)| == 1
  {
    var c := After(init, run);
    RunKeepsInv(init, run);
    NamesNeverChange(init, run);
    RecordedOnceIff(c, kind, region);
    PublishedOnConfiguredTopic(c, region, entries, def, byType, all, kind);
  }

  /** For the modules' own names, in regions none of which continues another across a dash, and for validated
      types that differ by more than dots and dashes: the ingress reads its table whatever the order in which
      it was rendered, and no event of a recorded type is lost or recorded twice. */
  lemma TerraformCutoverNeverLosesAType(
    name: string, init: Config, run: seq<Step>, kind: string, region: string, entries: seq<Entry>, def: Publisher,
    byType: map<string, Publisher>, all: seq<Publisher>)
    requires init.names == TerraformNames(name) && SafeRegions(init.regions) && DashedApart(init.kinds)
    requires init.types <= init.kinds && init.dedicated == map[] && init.extra == map[] && init.drop == {}
    requires Legal(init, run) && kind in init.types && region in init.regions
    requires IsTopicText(name) && IsTopicText(region)
    requires forall t :: t in After(init, run).dedicated ==> ValidKind(t)
    requires Lists(entries, RoutedTopics(After(init, run), region))
    ensures ReadOverrides(Environment(entries)) == Some(RoutedTopics(After(init, run), region))
    ensures Built(SharedTopic(name, region), RoutedTopics(After(init, run), region), def, byType, all) ==>
              var c := After(init, run);
              && Named(c) && Wired(c) && Preconditions(c)
              && |Matching(c, PublisherForType(byType, def, kind).topic, kind)| == 1
  {
    var c := After(init, run);
    SafeNames(name, init.regions, init.kinds);
    NamesNeverChange(init, run);
    ValidatedRoutesAreRead(name, c, region, entries);
    if Built(SharedTopic(name, region), RoutedTopics(c, region), def, byType, all) {
      assert Serves(c, region, entries, def, byType, all);
      CutoverNeverLosesAType(init, run, kind, region, entries, def, byType, all);
    }
  }

  lemma {:induction false} NamesNeverChange(c: Config, run: seq<Step>)
    requires Legal(c, run)
    ensures After(c, run).types == c.types && After(c, run).regions == c.regions
    ensures After(c, run).names == c.names && After(c, run).kinds == c.kinds
    decreases |run|
  {
    if run == [] {
    } else {
      NamesNeverChange(Apply(c, run[0]), run[1..]);
    }
  }
}
