/** A CloudEvent as a Pub/Sub message. */
module CloudEvent {
  import opened Options

  /** `extensions` maps a name to its canonical string, or to None if types.ToString rejects the value. */
  datatype Event = Event(
    id: string, specVersion: string, kind: string, source: string, subject: string, time: string,
    contentType: string, extensions: map<string, Option<string>>, data: string)

  datatype Message = Message(attributes: map<string, string>, data: string, orderingKey: string)

  const PARTITION_KEY_EXTENSION: string := "partitionkey"

  function StandardAttributes(e: Event): map<string, string> {
    map[
      "ce-id" := e.id, "ce-specversion" := e.specVersion, "ce-type" := e.kind, "ce-source" := e.source,
      "ce-subject" := e.subject, "ce-time" := e.time, "content-type" := e.contentType]
  }

  predicate IsStandard(attribute: string) {
    attribute in {"ce-id", "ce-specversion", "ce-type", "ce-source", "ce-subject", "ce-time", "content-type"}
  }

  function AttributeName(extension: string): string { "ce-" + extension }

  /** The extension becomes an attribute of the message. */
  predicate IsCarried(e: Event, k: string) {
    k in e.extensions && !IsStandard(AttributeName(k)) && e.extensions[k].Some?
  }

  /** The canonical string of the partition key extension, if the event carries one. */
  function OrderingKeyOf(e: Event): string {
    if IsCarried(e, PARTITION_KEY_EXTENSION) then e.extensions[PARTITION_KEY_EXTENSION].value else ""
  }

  /** `attributes` holds the standard attributes, every extension named in `done` that is carried, and
      nothing else.  Nothing here depends on an order of the extensions. */
  ghost predicate Holds(e: Event, done: set<string>, attributes: map<string, string>) {
    && (forall a :: a in StandardAttributes(e) ==> a in attributes && attributes[a] == StandardAttributes(e)[a])
    && (forall k :: k in done && IsCarried(e, k) ==>
          AttributeName(k) in attributes && attributes[AttributeName(k)] == e.extensions[k].value)
    && (forall a :: a in attributes ==>
          a in StandardAttributes(e) || exists k :: k in done && IsCarried(e, k) && a == AttributeName(k))
  }

  // ----- Reading a message -----

  /** What a subscriber of the binding sees in a message. */
  datatype Reading = Reading(
    id: string, specVersion: string, kind: string, source: string, subject: string, time: string,
    contentType: string, extensions: map<string, string>, data: string)

  /** The names of the other attributes with the prefix. */
  function ExtensionNames(attributes: map<string, string>): set<string> {
    set a | a in attributes && "ce-" <= a && !IsStandard(a) :: a[3..]
  }

  function ReadExtensions(attributes: map<string, string>): map<string, string> {
    map k | k in ExtensionNames(attributes) && "ce-" + k in attributes :: attributes["ce-" + k]
  }

  function Read(msg: Message): Option<Reading> {
    var a := msg.attributes;
    if {"ce-id", "ce-specversion", "ce-type", "ce-source", "ce-subject", "ce-time", "content-type"} <= a.Keys then
      Some(Reading(
             a["ce-id"], a["ce-specversion"], a["ce-type"], a["ce-source"], a["ce-subject"], a["ce-time"],
             a["content-type"], ReadExtensions(a), msg.data))
    else None
  }

  predicate IsFieldName(k: string) {
    k in {"id", "specversion", "type", "source", "subject", "time"}
  }

  /** The extensions that have a canonical string and do not bear the name of a field. */
  function Carried(e: Event): map<string, string> {
    map k | k in e.extensions && !IsFieldName(k) && e.extensions[k].Some? :: e.extensions[k].value
  }

  function AsRead(e: Event): Reading {
    Reading(e.id, e.specVersion, e.kind, e.source, e.subject, e.time, e.contentType, Carried(e), e.data)
  }

  lemma StandardIff(k: string)
    ensures IsStandard(AttributeName(k)) <==> IsFieldName(k)
  {
    assert AttributeName(k)[1] == 'e' && "content-type"[1] == 'o';
    SameName(k, "id");
    SameName(k, "specversion");
    SameName(k, "type");
    SameName(k, "source");
    SameName(k, "subject");
    SameName(k, "time");
    assert "ce-" + "id" == "ce-id" && "ce-" + "specversion" == "ce-specversion" && "ce-" + "type" == "ce-type";
    assert "ce-" + "source" == "ce-source" && "ce-" + "subject" == "ce-subject" && "ce-" + "time" == "ce-time";
  }

  lemma SameName(k: string, k': string)
    ensures AttributeName(k) == "ce-" + k' <==> k == k'
  {
    if AttributeName(k) == AttributeName(k') {
      NamesAreInjective(k, k');
    }
  }

  lemma ReadIff(attributes: map<string, string>, k: string)
    ensures k in ReadExtensions(attributes) <==> AttributeName(k) in attributes && !IsStandard(AttributeName(k))
  {
    var a := AttributeName(k);
    assert "ce-" <= a && a[3..] == k;
    if k in ReadExtensions(attributes) {
      var b :| b in attributes && "ce-" <= b && !IsStandard(b) && b[3..] == k;
      assert b == a;
    }
  }

  lemma HeldExtension(e: Event, attributes: map<string, string>, k: string)
    requires Holds(e, e.extensions.Keys, attributes) && !IsStandard(AttributeName(k))
    ensures AttributeName(k) in attributes <==> IsCarried(e, k)
    ensures IsCarried(e, k) ==> attributes[AttributeName(k)] == e.extensions[k].value
  {
    if AttributeName(k) in attributes {
      StandardNames(e, AttributeName(k));
      var j :| j in e.extensions.Keys && IsCarried(e, j) && AttributeName(k) == AttributeName(j);
      NamesAreInjective(j, k);
    }
  }

  lemma ExtensionIsRead(e: Event, attributes: map<string, string>, k: string)
    requires Holds(e, e.extensions.Keys, attributes)
    ensures k in ReadExtensions(attributes) <==> k in Carried(e)
    ensures k in Carried(e) ==> ReadExtensions(attributes)[k] == Carried(e)[k]
  {
    ReadIff(attributes, k);
    StandardIff(k);
    if !IsFieldName(k) {
      HeldExtension(e, attributes, k);
    }
  }

  lemma ExtensionsAreRead(e: Event, attributes: map<string, string>)
    requires Holds(e, e.extensions.Keys, attributes)
    ensures ReadExtensions(attributes) == Carried(e)
  {
    forall k
      ensures k in ReadExtensions(attributes) <==> k in Carried(e)
      ensures k in Carried(e) ==> ReadExtensions(attributes)[k] == Carried(e)[k]
    {
      ExtensionIsRead(e, attributes, k);
    }
  }

  /** A subscriber reads every field of the event under its own name, every carried extension, and nothing else. */
  lemma MessageIsRead(e: Event, attributes: map<string, string>, orderingKey: string)
    requires Holds(e, e.extensions.Keys, attributes)
    ensures Read(Message(attributes, e.data, orderingKey)) == Some(AsRead(e))
  {
    ExtensionsAreRead(e, attributes);
    StandardIsRead(e, attributes);
  }

  lemma StandardIsRead(e: Event, attributes: map<string, string>)
    requires Holds(e, e.extensions.Keys, attributes)
    ensures {"ce-id", "ce-specversion", "ce-type", "ce-source", "ce-subject", "ce-time", "content-type"}
            <= attributes.Keys
    ensures attributes["ce-id"] == e.id && attributes["ce-specversion"] == e.specVersion
    ensures attributes["ce-type"] == e.kind && attributes["ce-source"] == e.source
    ensures attributes["ce-subject"] == e.subject && attributes["ce-time"] == e.time
    ensures attributes["content-type"] == e.contentType
  {
    var standard := StandardAttributes(e);
    assert "ce-id" in standard && "ce-specversion" in standard && "ce-type" in standard && "ce-source" in standard;
    assert "ce-subject" in standard && "ce-time" in standard && "content-type" in standard;
  }

  lemma NamesAreInjective(k: string, k': string)
    requires AttributeName(k) == AttributeName(k')
    ensures k == k'
  {
    assert AttributeName(k)[3..] == k && AttributeName(k')[3..] == k';
  }

  lemma StandardNames(e: Event, a: string)
    ensures a in StandardAttributes(e) <==> IsStandard(a)
  {
  }

  lemma CarryKeepsHolds(e: Event, done: set<string>, attributes: map<string, string>, k: string)
    requires Holds(e, done, attributes) && k in e.extensions
    ensures Holds(e, done + {k},
                  if IsCarried(e, k) then attributes[AttributeName(k) := e.extensions[k].value] else attributes)
  {
    if IsCarried(e, k) {
      StandardNames(e, AttributeName(k));
      forall j | j in done && IsCarried(e, j) && j != k
        ensures AttributeName(j) != AttributeName(k)
      {
        if AttributeName(j) == AttributeName(k) {
          NamesAreInjective(j, k);
        }
      }
      assert k in done + {k};
    }
  }

  /** The loop over the extensions, in any order Go's map iteration may take. */
  method FromCloudEvent(e: Event, ordered: bool) returns (msg: Message)
    ensures Read(msg) == Some(AsRead(e))
    ensures Holds(e, e.extensions.Keys, msg.attributes)
    ensures msg.orderingKey == if ordered then OrderingKeyOf(e) else ""
  {
    var attributes := StandardAttributes(e);
    var orderingKey := "";
    var todo := e.extensions.Keys;
    ghost var done: set<string> := {};
    while todo != {}
      invariant done + todo == e.extensions.Keys && done !! todo
      invariant Holds(e, done, attributes)
      invariant orderingKey ==
                if ordered && PARTITION_KEY_EXTENSION in done && IsCarried(e, PARTITION_KEY_EXTENSION)
                then e.extensions[PARTITION_KEY_EXTENSION].value else ""
    {
      var k :| k in todo;
      todo := todo - {k};
      CarryKeepsHolds(e, done, attributes, k);
      done := done + {k};
      var key := "ce-" + k;
      assert key == AttributeName(k);
      if IsStandard(key) {
        continue;
      }
      if e.extensions[k].None? {
        continue;
      }
      attributes := attributes[key := e.extensions[k].value];
      if ordered && k == PARTITION_KEY_EXTENSION {
        orderingKey := e.extensions[k].value;
      }
    }
    assert done == e.extensions.Keys;
    MessageIsRead(e, attributes, orderingKey);
    return Message(attributes, e.data, orderingKey);
  }

  /** The attributes are determined by the event: any two iteration orders give the same map. */
  lemma AttributesAreUnique(e: Event, a: map<string, string>, b: map<string, string>)
    requires Holds(e, e.extensions.Keys, a) && Holds(e, e.extensions.Keys, b)
    ensures a == b
  {
  }

  /** The message's attributes with the sender stamped on, as forward publishes it. */
  function Stamped(attributes: map<string, string>, actor: string): map<string, string> {
    attributes["ce-actor" := actor]
  }

  /** Whatever extensions an event brings, a subscriber reads the event's own fields and extensions, the
      authenticated sender as the actor, and as ordering key the partitionkey extension (empty without one). */
  lemma StampedMessage(e: Event, attributes: map<string, string>, actor: string)
    requires Holds(e, e.extensions.Keys, attributes)
    ensures var msg := Message(Stamped(attributes, actor), e.data, OrderingKeyOf(e));
            && Read(msg) == Some(AsRead(e).(extensions := Carried(e)["actor" := actor]))
            && msg.orderingKey == if "partitionkey" in Carried(e) then Carried(e)["partitionkey"] else ""
  {
    MessageIsRead(e, attributes, OrderingKeyOf(e));
    StandardIff(PARTITION_KEY_EXTENSION);
    ActorIsRead(attributes, actor);
    StandardNames(e, "ce-actor");
  }

  lemma ActorIsReadAt(attributes: map<string, string>, actor: string, k: string)
    ensures var read := ReadExtensions(Stamped(attributes, actor));
            && (k in read <==> k == "actor" || k in ReadExtensions(attributes))
            && (k in read ==> read[k] == if k == "actor" then actor else ReadExtensions(attributes)[k])
  {
    ReadIff(attributes, k);
    ReadIff(Stamped(attributes, actor), k);
    SameName(k, "actor");
    assert "ce-" + "actor" == "ce-actor";
    if k == "actor" {
      StandardIff(k);
    }
  }

  lemma UpdatedMap(before: map<string, string>, after: map<string, string>, key: string, value: string)
    requires forall k :: k in after <==> k == key || k in before
    requires forall k :: k in after ==> after[k] == if k == key then value else before[k]
    ensures after == before[key := value]
  {
  }

  lemma ActorIsRead(attributes: map<string, string>, actor: string)
    ensures ReadExtensions(Stamped(attributes, actor)) == ReadExtensions(attributes)["actor" := actor]
  {
    var before, after := ReadExtensions(attributes), ReadExtensions(Stamped(attributes, actor));
    forall k
      ensures k in after <==> k == "actor" || k in before
      ensures k in after ==> after[k] == if k == "actor" then actor else before[k]
    {
      ActorIsReadAt(attributes, actor, k);
    }
    UpdatedMap(before, after, "actor", actor);
  }
}
