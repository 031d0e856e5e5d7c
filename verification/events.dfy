/** The trigger's event payload (src/types/handler-event.ts) and the filter
    `handler` applies to it (src/index.ts:22-37): every field is optional,
    and only object-creation messages naming a bucket and an object select
    an object for processing. */
module Events {
  import opened Wrappers

  datatype TracingContext = TracingContext(
    traceId: Option<string>,
    spanId: Option<string>,
    parentSpanId: Option<string>)

  datatype EventMetadata = EventMetadata(
    eventId: Option<string>,
    eventType: Option<string>,
    createdAt: Option<string>,
    tracingContext: Option<TracingContext>,
    cloudId: Option<string>,
    folderId: Option<string>)

  datatype Details = Details(bucketId: Option<string>, objectId: Option<string>)

  datatype Message = Message(eventMetadata: Option<EventMetadata>, details: Option<Details>)

  /** What `event.messages` holds at run time: an array, or some other
      value that `Array.isArray` rejects. */
  datatype Messages = Array(items: seq<Message>) | NotAnArray

  datatype HandlerEvent = HandlerEvent(messages: Option<Messages>, payload: Option<string>)

  /** The bucket and object a qualifying message names. */
  datatype Target = Target(bucketId: string, objectId: string)

  const ObjectCreate: string := "yandex.cloud.events.storage.ObjectCreate"

  /** JavaScript truthiness of an optional string: present and not empty. */
  predicate Truthy(s: Option<string>)
  {
    s.Some? && s.value != ""
  }

  /** The condition of the `if` inside the loop. */
  predicate Qualifies(m: Message)
  {
    && m.eventMetadata.Some?
    && m.eventMetadata.value.eventType == Some(ObjectCreate)
    && m.details.Some?
    && Truthy(m.details.value.objectId)
    && Truthy(m.details.value.bucketId)
  }

  function TargetOf(m: Message): Target
    requires Qualifies(m)
  {
    Target(m.details.value.bucketId.value, m.details.value.objectId.value)
  }

  /** The messages the loop visits: every element of `messages` when it
      is an array, in array order, and none otherwise. */
  function MessageList(event: HandlerEvent): (ms: seq<Message>)
    ensures event.messages.None? || event.messages.value.NotAnArray? ==> ms == []
    ensures event.messages.Some? && event.messages.value.Array? ==> ms == event.messages.value.items
  {
    match event.messages
    case Some(Array(items)) => items
    case _ => []
  }

  /** The target one message contributes: its own, or none. */
  function Pick(m: Message): seq<Target>
  {
    if Qualifies(m) then [TargetOf(m)] else []
  }

  /** The targets of the qualifying messages, in message order. */
  function Selected(ms: seq<Message>): (ts: seq<Target>)
    ensures |ts| <= |ms|
  {
    if |ms| == 0 then [] else Pick(ms[0]) + Selected(ms[1..])
  }

  /** Selection distributes over concatenation: the order of the messages
      is kept. */
  lemma {:induction false} SelectedAppend(a: seq<Message>, b: seq<Message>)
    ensures Selected(a + b) == Selected(a) + Selected(b)
    decreases |a|
  {
    if |a| == 0 {
      assert a + b == b;
    } else {
      assert (a + b)[0] == a[0];
      assert (a + b)[1..] == a[1..] + b;
      SelectedAppend(a[1..], b);
      calc {
        Selected(a + b);
        Pick(a[0]) + Selected(a[1..] + b);
        Pick(a[0]) + (Selected(a[1..]) + Selected(b));
        (Pick(a[0]) + Selected(a[1..])) + Selected(b);
      }
    }
  }

  /** Selection proceeds message by message: one more message adds its
      own target, if any, at the end. */
  lemma SelectedStep(ms: seq<Message>, i: nat)
    requires i < |ms|
    ensures Selected(ms[..i + 1]) == Selected(ms[..i]) + Pick(ms[i])
  {
    assert ms[..i + 1] == ms[..i] + [ms[i]];
    SelectedAppend(ms[..i], [ms[i]]);
    assert Selected([ms[i]]) == Pick(ms[i]) + Selected([]);
  }

  /** What the first `i` messages select is a prefix of what all of them
      select. */
  lemma SelectedPrefix(ms: seq<Message>, i: nat)
    requires i <= |ms|
    ensures Selected(ms[..i]) <= Selected(ms)
  {
    assert ms == ms[..i] + ms[i..];
    SelectedAppend(ms[..i], ms[i..]);
  }

  /** A message selects its target if and only if it qualifies: every
      qualifying message's target is selected, and every selected target
      comes from a qualifying message. */
  lemma {:induction false} SelectedExactly(ms: seq<Message>)
    ensures forall i :: 0 <= i < |ms| && Qualifies(ms[i]) ==> TargetOf(ms[i]) in Selected(ms)
    ensures forall t :: t in Selected(ms) ==>
              exists i :: 0 <= i < |ms| && Qualifies(ms[i]) && TargetOf(ms[i]) == t
    decreases |ms|
  {
    if |ms| > 0 {
      SelectedExactly(ms[1..]);
      forall i | 0 <= i < |ms| && Qualifies(ms[i])
        ensures TargetOf(ms[i]) in Selected(ms)
      {
        if i > 0 {
          assert ms[i] == ms[1..][i - 1];
        }
      }
      forall t | t in Selected(ms)
        ensures exists i :: 0 <= i < |ms| && Qualifies(ms[i]) && TargetOf(ms[i]) == t
      {
        if !(Qualifies(ms[0]) && TargetOf(ms[0]) == t) {
          assert t in Selected(ms[1..]);
          var j :| 0 <= j < |ms[1..]| && Qualifies(ms[1..][j]) && TargetOf(ms[1..][j]) == t;
          assert ms[j + 1] == ms[1..][j];
        }
      }
    }
  }

  /** A batch whose messages all have another event type selects nothing. */
  lemma {:induction false} OtherEventTypesSelectNothing(ms: seq<Message>)
    requires forall i :: 0 <= i < |ms| ==>
               ms[i].eventMetadata.Some? && ms[i].eventMetadata.value.eventType != Some(ObjectCreate)
    ensures Selected(ms) == []
    decreases |ms|
  {
    if |ms| > 0 {
      assert forall i :: 0 <= i < |ms[1..]| ==> ms[1..][i] == ms[i + 1];
      OtherEventTypesSelectNothing(ms[1..]);
    }
  }
}
