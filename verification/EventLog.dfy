/**
 The JSONL event log: one compact object and a line break per event, appended under the lock.
 */
module EventLog {
  import opened Wrappers
  import opened JsonValues
  import opened JsonGrammar
  import opened JsonReader
  import opened JsonTheorems
  import opened JsonPrinter
  import Text

  datatype Event = Event(timestamp: string, kind: string, instance: string, operation: string,
                         evidence: string, valid: bool, extra: Json)

  ghost predicate Printable(v: Json) {
    WellFormed(v) && IntegersOnly(v)
  }

  // The keys of an event object
  const TIMESTAMP := "timestamp"
  const SESSION_ID := "session_id"
  const EVENT_TYPE := "event_type"
  const INSTANCE_ID := "instance_id"
  const OPERATION := "operation"
  const EVIDENCE_REF := "evidence_ref"
  const VALIDATION_RESULT := "validation_result"
  const EXTRA := "extra"

  /** The object `event` builds by repeated `set`. */
  function EventObject(session: string, e: Event): Json {
    var o := Set(Obj([]), TIMESTAMP, Str(e.timestamp));
    var o := Set(o, SESSION_ID, Str(session));
    var o := Set(o, EVENT_TYPE, Str(e.kind));
    var o := Set(o, INSTANCE_ID, Str(e.instance));
    var o := Set(o, OPERATION, Str(e.operation));
    var o := Set(o, EVIDENCE_REF, Str(e.evidence));
    var o := Set(o, VALIDATION_RESULT, Bool(e.valid));
    Set(o, EXTRA, e.extra)
  }

  ghost function Line(show: Show, session: string, e: Event): string {
    ValueText(show, EventObject(session, e), false, 0)
  }

  class Logger {
    const show: Show
    var session: string
    var logFile: string           // the path; empty before `Init`
    var content: string           // what the file holds
    ghost var events: seq<Event>  // the events appended since `Init`, in the order in which they got the lock

    ghost predicate Valid()
      reads this
    {
      content == LogText(show, session, events)
    }

    constructor (show: Show)
      ensures Valid() && logFile == "" && events == [] && this.show == show
    {
      this.show := show;
      session, logFile, content, events := "", "", "", [];
    }

    method Init(dir: string, sessionId: string)
      modifies this
      ensures Valid() && session == sessionId && events == []
      ensures logFile == dir + "/events_" + sessionId + ".jsonl"
    {
      session := sessionId;
      logFile := dir + "/events_" + sessionId + ".jsonl";
      content, events := "", [];
    }

    method Build(e: Event) returns (ev: Json)
      ensures ev == EventObject(session, e)
    {
      ev := Obj([]);
      ev := Set(ev, TIMESTAMP, Str(e.timestamp));
      ev := Set(ev, SESSION_ID, Str(session));
      ev := Set(ev, EVENT_TYPE, Str(e.kind));
      ev := Set(ev, INSTANCE_ID, Str(e.instance));
      ev := Set(ev, OPERATION, Str(e.operation));
      ev := Set(ev, EVIDENCE_REF, Str(e.evidence));
      ev := Set(ev, VALIDATION_RESULT, Bool(e.valid));
      ev := Set(ev, EXTRA, e.extra);
    }

    method Render(e: Event) returns (line: string)
      ensures line == Line(show, session, e)
    {
      var ev := Build(e);
      line := Serialize(show, ev, false);
    }

    method Append(e: Event)
      requires Valid()
      modifies this`content, this`events
      ensures Valid() && events == if logFile == "" then old(events) else old(events) + [e]
    {
      var text := Render(e);
      if logFile != "" {
        LogTextSnoc(show, session, events, e);
        content := content + (text + "\n");
        events := events + [e];
      }
    }
  }

  ghost function LogText(show: Show, session: string, es: seq<Event>): string {
    if es == [] then "" else (Line(show, session, es[0]) + "\n") + LogText(show, session, es[1..])
  }

  lemma {:induction false} LogTextSnoc(show: Show, session: string, es: seq<Event>, e: Event)
    ensures LogText(show, session, es + [e]) == LogText(show, session, es) + (Line(show, session, e) + "\n")
  {
    if es == [] {
      assert [e][1..] == [] && es + [e] == [e];
      var entry := Line(show, session, e) + "\n";
      assert entry + "" == entry == "" + entry;
    } else {
      assert (es + [e])[1..] == es[1..] + [e];
      LogTextSnoc(show, session, es[1..], e);
      Regroup(Line(show, session, es[0]) + "\n", LogText(show, session, es[1..]), Line(show, session, e) + "\n");
    }
  }

  // Objects built by `set`

  lemma {:induction false} AssignMembers(ms: seq<Member>, k: string, v: Json)
    ensures forall m :: m in Assign(ms, k, v) ==> m in ms || m == Member(k, v)
  {
    if !(ms == [] || Less(k, ms[0].key)) && ms[0].key != k {
      AssignMembers(ms[1..], k, v);
    }
  }

  /** `set` keeps an object a map and changes exactly one key of it; anything else becomes an object first. */
  lemma SetIsMapUpdate(v: Json, k: string, w: Json)
    requires Printable(v) && Printable(w)
    ensures Set(v, k, w).Obj? && Printable(Set(v, k, w))
    ensures AsMap(Set(v, k, w).members) == (if v.Obj? then AsMap(v.members) else map[])[k := w]
  {
    var before := if v.Obj? then v.members else [];
    AssignIsMapUpdate(before, k, w);
    AssignMembers(before, k, w);
    var ms := Assign(before, k, w);
    forall i | 0 <= i < |ms| ensures Printable(ms[i].val) {
      assert ms[i] in ms;
    }
  }

  function EventMap(session: string, e: Event): map<string, Json> {
    map["timestamp" := Str(e.timestamp), "session_id" := Str(session), "event_type" := Str(e.kind),
        "instance_id" := Str(e.instance), "operation" := Str(e.operation), "evidence_ref" := Str(e.evidence),
        "validation_result" := Bool(e.valid), "extra" := e.extra]
  }

  /** Every argument of an event is found in its object under its own key. */
  lemma EventFields(session: string, e: Event)
    requires Printable(e.extra)
    ensures var v := EventObject(session, e);
            && v.Obj? && Printable(v) && AsMap(v.members) == EventMap(session, e)
  {
    var o1 := Set(Obj([]), TIMESTAMP, Str(e.timestamp));
    SetIsMapUpdate(Obj([]), TIMESTAMP, Str(e.timestamp));
    var o2 := Set(o1, SESSION_ID, Str(session));
    SetIsMapUpdate(o1, SESSION_ID, Str(session));
    var o3 := Set(o2, EVENT_TYPE, Str(e.kind));
    SetIsMapUpdate(o2, EVENT_TYPE, Str(e.kind));
    var o4 := Set(o3, INSTANCE_ID, Str(e.instance));
    SetIsMapUpdate(o3, INSTANCE_ID, Str(e.instance));
    var o5 := Set(o4, OPERATION, Str(e.operation));
    SetIsMapUpdate(o4, OPERATION, Str(e.operation));
    var o6 := Set(o5, EVIDENCE_REF, Str(e.evidence));
    SetIsMapUpdate(o5, EVIDENCE_REF, Str(e.evidence));
    var o7 := Set(o6, VALIDATION_RESULT, Bool(e.valid));
    SetIsMapUpdate(o6, VALIDATION_RESULT, Bool(e.valid));
    SetIsMapUpdate(o7, EXTRA, e.extra);
  }

  lemma OneLine(stod: Stod, show: Show, session: string, e: Event)
    requires Printable(e.extra)
    ensures '\n' !in Line(show, session, e)
    ensures Parse(stod, Line(show, session, e)) == Some(EventObject(session, e))
  {
    var v := EventObject(session, e);
    EventFields(session, e);
    IntegersRoundTrip(stod, show, v, false);
    IntegersAreFaithful(stod, show, v);
    CompactNoControls(show, v, 0);
  }

  ghost predicate Recovers(stod: Stod, session: string, pieces: seq<string>, es: seq<Event>) {
    && |pieces| == |es| + 1 && pieces[|es|] == ""
    && forall i :: 0 <= i < |es| ==> Parse(stod, pieces[i]) == Some(EventObject(session, es[i]))
  }

  lemma OneMoreRecovers(stod: Stod, session: string, line: string, pieces: seq<string>, e: Event, es: seq<Event>)
    requires Parse(stod, line) == Some(EventObject(session, e)) && Recovers(stod, session, pieces, es)
    ensures Recovers(stod, session, [line] + pieces, [e] + es)
  {
    var all, events := [line] + pieces, [e] + es;
    forall i | 0 <= i < |events| ensures Parse(stod, all[i]) == Some(EventObject(session, events[i])) {
      assert i > 0 ==> all[i] == pieces[i - 1] && events[i] == es[i - 1];
    }
  }

  lemma FrontIsRecovered(stod: Stod, show: Show, session: string, e: Event, es: seq<Event>, rest: string)
    requires Printable(e.extra) && Recovers(stod, session, Text.Split(rest, '\n'), es)
    ensures Recovers(stod, session, Text.Split((Line(show, session, e) + "\n") + rest, '\n'), [e] + es)
  {
    var line := Line(show, session, e);
    OneLine(stod, show, session, e);
    Text.SplitLine(line, '\n', rest);
    OneMoreRecovers(stod, session, line, Text.Split(rest, '\n'), e, es);
  }

  /**
   Splitting the log at line breaks gives one piece per event and an empty last piece, and parsing the pieces gives
   the event objects back, in the order of the appends.
   */
  lemma {:induction false} LogIsRecovered(stod: Stod, show: Show, session: string, es: seq<Event>)
    requires forall i :: 0 <= i < |es| ==> Printable(es[i].extra)
    ensures Recovers(stod, session, Text.Split(LogText(show, session, es), '\n'), es)
  {
    if es != [] {
      LogIsRecovered(stod, show, session, es[1..]);
      assert [es[0]] + es[1..] == es;
      FrontIsRecovered(stod, show, session, es[0], es[1..], LogText(show, session, es[1..]));
    }
  }

  /** The object determines the event, so nothing about an event is lost in the log. */
  lemma EventsAreDistinguished(s1: string, e1: Event, s2: string, e2: Event)
    requires Printable(e1.extra) && Printable(e2.extra) && EventObject(s1, e1) == EventObject(s2, e2)
    ensures s1 == s2 && e1 == e2
  {
    EventFields(s1, e1);
    EventFields(s2, e2);
    EventMapsAreDistinguished(s1, e1, s2, e2);
  }

  lemma EventMapsAreDistinguished(s1: string, e1: Event, s2: string, e2: Event)
    requires EventMap(s1, e1) == EventMap(s2, e2)
    ensures s1 == s2 && e1 == e2
  {
    var m := EventMap(s1, e1);
    assert m["timestamp"] == Str(e1.timestamp) == Str(e2.timestamp);
    assert m["session_id"] == Str(s1) == Str(s2);
    assert m["event_type"] == Str(e1.kind) == Str(e2.kind);
    assert m["instance_id"] == Str(e1.instance) == Str(e2.instance);
    assert m["operation"] == Str(e1.operation) == Str(e2.operation);
    assert m["evidence_ref"] == Str(e1.evidence) == Str(e2.evidence);
    assert m["validation_result"] == Bool(e1.valid) == Bool(e2.valid);
    assert m["extra"] == e1.extra == e2.extra;
  }
}
