/**
 The line protocol between the client and the proof server: one request line, one reply line, one call at a time
 under the lock, over two byte pipes that may split or merge what is written in any way.
 There are no timeouts, write errors or crashes here.
 */
module Bridge {
  import opened Wrappers
  import opened JsonValues
  import opened JsonGrammar
  import opened JsonReader
  import opened JsonTheorems
  import opened JsonParser
  import opened JsonPrinter
  import opened EventLog

  datatype Request = Request(cmd: string, payload: Json, seqnum: nat)

  /** The envelope `call` builds. */
  function Envelope(r: Request): Json {
    var o := Set(Obj([]), "cmd", Str(r.cmd));
    var o := Set(o, "payload", r.payload);
    Set(o, "seqnum", Num(Int(r.seqnum)))
  }

  ghost predicate RequestOk(r: Request) {
    Printable(r.payload) && r.seqnum <= EXACT
  }

  ghost function RequestLine(show: Show, r: Request): string {
    ValueText(show, Envelope(r), false, 0)
  }

  lemma RequestIsOneLine(stod: Stod, show: Show, r: Request)
    requires RequestOk(r)
    ensures '\n' !in RequestLine(show, r)
    ensures Parse(stod, RequestLine(show, r)) == Some(Envelope(r))
    ensures AsMap(Envelope(r).members)
         == map["cmd" := Str(r.cmd), "payload" := r.payload, "seqnum" := Num(Int(r.seqnum))]
  {
    var o1 := Set(Obj([]), "cmd", Str(r.cmd));
    SetIsMapUpdate(Obj([]), "cmd", Str(r.cmd));
    var o2 := Set(o1, "payload", r.payload);
    SetIsMapUpdate(o1, "payload", r.payload);
    SetIsMapUpdate(o2, "seqnum", Num(Int(r.seqnum)));
    IntegersRoundTrip(stod, show, Envelope(r), false);
    IntegersAreFaithful(stod, show, Envelope(r));
    CompactNoControls(show, Envelope(r), 0);
  }

  // The system

  /** What the client is doing; `buf` and `left` are local variables of the running call. */
  datatype Phase =
    | Starting(buf: string)  // waiting for the first line of the server
    | Idle                   // nobody holds the lock
    | Writing(left: string)
    | Reading(buf: string)

  datatype System = System(
    client: Phase,
    toServer: string,         // bytes in the request pipe
    serverIn: string,         // bytes the server has read but not yet taken as a line
    serverOut: string,        // bytes the server still has to write
    toClient: string,         // bytes in the reply pipe
    requests: seq<Request>,   // requests in the order in which their calls got the lock
    received: seq<string>,    // lines the server has taken
    replies: seq<string>,     // lines the server has answered, in order
    results: seq<string>,     // lines returned to the calls, in order
    greeting: Option<string>, // the line read at the start
    discarded: string)        // bytes read by the client and thrown away

  datatype Action =
    | Acquire(r: Request)     // a call gets the lock and serializes its envelope
    | Write(n: nat)           // `write` takes some bytes
    | Fetch(n: nat)           // the server reads some bytes
    | Answer(reply: string)   // the server takes a line and answers it
    | Send(n: nat)            // the server writes some bytes
    | Read(n: nat)            // `read` returns some bytes

  const CHUNK := 4096

  /** The position of the first line break, or the length. */
  function BreakAt(s: string): (i: nat)
    ensures i <= |s| && '\n' !in s[..i] && (i < |s| ==> s[i] == '\n')
  {
    if s == "" || s[0] == '\n' then 0 else
      var i := 1 + BreakAt(s[1..]);
      assert s[..i] == [s[0]] + s[1..][..i - 1];
      i
  }

  ghost predicate Enabled(s: System, a: Action) {
    match a
    case Acquire(r) => s.client.Idle? && RequestOk(r)
    case Write(n) => s.client.Writing? && 0 < n <= |s.client.left|
    case Fetch(n) => 0 < n <= |s.toServer|
    case Answer(reply) => '\n' in s.serverIn && '\n' !in reply
    case Send(n) => 0 < n <= |s.serverOut|
    case Read(n) => (s.client.Starting? || s.client.Reading?) && 0 < n <= |s.toClient| && n <= CHUNK
  }

  ghost function Next(show: Show, s: System, a: Action): System
    requires Enabled(s, a)
  {
    match a
    case Acquire(r) =>
      s.(client := Writing(RequestLine(show, r) + "\n"), requests := s.requests + [r])
    case Write(n) =>
      var left := s.client.left;
      s.(client := if n == |left| then Reading("") else Writing(left[n..]), toServer := s.toServer + left[..n])
    case Fetch(n) =>
      s.(toServer := s.toServer[n..], serverIn := s.serverIn + s.toServer[..n])
    case Answer(reply) =>
      var i := BreakAt(s.serverIn);
      s.(serverIn := s.serverIn[i + 1..], received := s.received + [s.serverIn[..i]],
         replies := s.replies + [reply], serverOut := s.serverOut + (reply + "\n"))
    case Send(n) =>
      s.(serverOut := s.serverOut[n..], toClient := s.toClient + s.serverOut[..n])
    case Read(n) =>
      var buf := s.client.buf + s.toClient[..n];
      var s := s.(toClient := s.toClient[n..]);
      var i := BreakAt(buf);
      if i == |buf| then s.(client := if s.client.Starting? then Starting(buf) else Reading(buf))
      else
        var s := s.(discarded := s.discarded + buf[i + 1..]);
        if s.client.Starting? then s.(client := Idle, greeting := Some(buf[..i]))
        else s.(client := Idle, results := s.results + [buf[..i]])
  }

  ghost function Initial(ready: string): System {
    System(Starting(""), "", "", ready + "\n", "", [], [], [], [], None, "")
  }

  ghost predicate Possible(show: Show, s: System, run: seq<Action>)
    decreases |run|
  {
    run == [] || (Enabled(s, run[0]) && Possible(show, Next(show, s, run[0]), run[1..]))
  }

  ghost function After(show: Show, s: System, run: seq<Action>): System
    requires Possible(show, s, run)
    decreases |run|
  {
    if run == [] then s else After(show, Next(show, s, run[0]), run[1..])
  }

  // The invariant

  ghost predicate Histories(show: Show, s: System) {
    && |s.received| == |s.replies| <= |s.requests| && |s.results| <= |s.replies|
    && s.results == s.replies[..|s.results|]
    && (forall k :: 0 <= k < |s.requests| ==> RequestOk(s.requests[k]))
    && (forall k :: 0 <= k < |s.received| ==> s.received[k] == RequestLine(show, s.requests[k]))
    && s.discarded == ""
  }

  /** A byte string that is some text, without line breaks, and its final line break. */
  ghost predicate IsLine(s: string, line: string) {
    s == line + "\n" && '\n' !in line
  }

  ghost predicate Invariant(show: Show, ready: string, s: System) {
    && Histories(show, s)
    && match s.client
       case Starting(buf) =>
         && s.requests == [] && s.greeting == None && s.toServer == s.serverIn == "" && '\n' !in buf
         && IsLine(buf + (s.toClient + s.serverOut), ready)
       case Idle =>
         && s.greeting == Some(ready) && |s.results| == |s.requests|
         && s.toServer == s.serverIn == s.serverOut == s.toClient == ""
       case Writing(left) =>
         && s.greeting == Some(ready) && |s.results| + 1 == |s.requests| && |s.replies| == |s.results|
         && left != "" && s.serverOut == s.toClient == ""
         && IsLine(s.serverIn + (s.toServer + left), RequestLine(show, s.requests[|s.results|]))
       case Reading(buf) =>
         && s.greeting == Some(ready) && |s.results| + 1 == |s.requests|
         && if |s.replies| == |s.results| then
              && s.serverOut == s.toClient == buf == ""
              && IsLine(s.serverIn + s.toServer, RequestLine(show, s.requests[|s.results|]))
            else
              && s.serverIn == s.toServer == "" && '\n' !in buf
              && IsLine(buf + (s.toClient + s.serverOut), s.replies[|s.results|])
  }

  /** The line break ends a line, so a proper front of the line holds none. */
  lemma FrontOfLine(a: string, b: string, line: string)
    requires IsLine(a + b, line)
    ensures '\n' in a <==> b == ""
    ensures b == "" ==> BreakAt(a) == |line| && a[..|line|] == line && a[|line| + 1..] == ""
  {
    assert (a + b)[|line|] == '\n';
    if b == "" {
      assert a + b == a;
      assert a[BreakAt(a)] == '\n';
    } else {
      assert |a| <= |line|;
      forall i | 0 <= i < |a| ensures a[i] != '\n' {
        assert a[i] == (a + b)[i] == line[i];
      }
    }
  }

  lemma InitialHolds(show: Show, ready: string)
    requires '\n' !in ready
    ensures Invariant(show, ready, Initial(ready))
  {
    assert "" + ("" + (ready + "\n")) == ready + "\n";
  }

  lemma StepKeepsInvariant(show: Show, ready: string, s: System, a: Action)
    requires Invariant(show, ready, s) && Enabled(s, a)
    ensures Invariant(show, ready, Next(show, s, a))
  {
    match a
    case Acquire(r) => AcquireKeeps(show, ready, s, r);
    case Write(n) => WriteKeeps(show, ready, s, n);
    case Fetch(n) => FetchKeeps(show, ready, s, n);
    case Answer(reply) => AnswerKeeps(show, ready, s, reply);
    case Send(n) => SendKeeps(show, ready, s, n);
    case Read(n) => ReadKeeps(show, ready, s, n);
  }

  lemma AcquireKeeps(show: Show, ready: string, s: System, r: Request)
    requires Invariant(show, ready, s) && Enabled(s, Acquire(r))
    ensures Invariant(show, ready, Next(show, s, Acquire(r)))
  {
    RequestIsOneLine(_ => None, show, r);
    var line := RequestLine(show, r) + "\n";
    assert "" + ("" + line) == line;
  }

  lemma WriteKeeps(show: Show, ready: string, s: System, n: nat)
    requires Invariant(show, ready, s) && Enabled(s, Write(n))
    ensures Invariant(show, ready, Next(show, s, Write(n)))
  {
    var left := s.client.left;
    assert left == left[..n] + left[n..];
    assert s.serverIn + (s.toServer + left) == s.serverIn + ((s.toServer + left[..n]) + left[n..]);
    if n == |left| {
      assert (s.toServer + left[..n]) + left[n..] == s.toServer + left[..n];
    }
  }

  lemma FetchKeeps(show: Show, ready: string, s: System, n: nat)
    requires Invariant(show, ready, s) && Enabled(s, Fetch(n))
    ensures Invariant(show, ready, Next(show, s, Fetch(n)))
  {
    var t := s.toServer;
    assert s.serverIn + t == (s.serverIn + t[..n]) + t[n..];
    if s.client.Writing? {
      assert s.serverIn + (t + s.client.left) == (s.serverIn + t[..n]) + (t[n..] + s.client.left);
    }
  }

  lemma AnswerKeeps(show: Show, ready: string, s: System, reply: string)
    requires Invariant(show, ready, s) && Enabled(s, Answer(reply))
    ensures Invariant(show, ready, Next(show, s, Answer(reply)))
  {
    match s.client
    case Writing(left) =>
      FrontOfLine(s.serverIn, s.toServer + left, RequestLine(show, s.requests[|s.results|]));
    case Reading(buf) =>
      FrontOfLine(s.serverIn, s.toServer, RequestLine(show, s.requests[|s.results|]));
      assert "" + ("" + ("" + (reply + "\n"))) == reply + "\n";
    case _ =>
  }

  lemma SendKeeps(show: Show, ready: string, s: System, n: nat)
    requires Invariant(show, ready, s) && Enabled(s, Send(n))
    ensures Invariant(show, ready, Next(show, s, Send(n)))
  {
    var o := s.serverOut;
    assert s.toClient + o == (s.toClient + o[..n]) + o[n..];
  }

  lemma ReadKeeps(show: Show, ready: string, s: System, n: nat)
    requires Invariant(show, ready, s) && Enabled(s, Read(n))
    ensures Invariant(show, ready, Next(show, s, Read(n)))
  {
    var t := s.toClient;
    var buf := s.client.buf + t[..n];
    assert s.client.buf + (t + s.serverOut) == buf + (t[n..] + s.serverOut);
    var line := if s.client.Starting? then ready else s.replies[|s.results|];
    FrontOfLine(buf, t[n..] + s.serverOut, line);
    assert BreakAt(buf) < |buf| <==> '\n' in buf;
  }

  lemma {:induction false} RunKeepsInvariant(show: Show, ready: string, s: System, run: seq<Action>)
    requires Invariant(show, ready, s) && Possible(show, s, run)
    ensures Invariant(show, ready, After(show, s, run))
    decreases |run|
  {
    if run != [] {
      StepKeepsInvariant(show, ready, s, run[0]);
      RunKeepsInvariant(show, ready, Next(show, s, run[0]), run[1..]);
    }
  }

  /**
   End to end, in every run and however the pipes split or merge bytes: the server decodes exactly the envelopes
   that were sent, in lock order; the k-th call gets the reply to the k-th request; no byte of a reply is lost.
   */
  lemma Delivery(stod: Stod, show: Show, ready: string, run: seq<Action>)
    requires '\n' !in ready && Possible(show, Initial(ready), run)
    ensures var s := After(show, Initial(ready), run);
            && |s.results| <= |s.replies| == |s.received| <= |s.requests| <= |s.results| + 1
            && (forall k :: 0 <= k < |s.received| ==> Parse(stod, s.received[k]) == Some(Envelope(s.requests[k])))
            && (forall k :: 0 <= k < |s.results| ==> s.results[k] == s.replies[k])
            && (s.greeting.Some? ==> s.greeting.value == ready)
            && s.discarded == ""
  {
    InitialHolds(show, ready);
    RunKeepsInvariant(show, ready, Initial(ready), run);
    var s := After(show, Initial(ready), run);
    forall k | 0 <= k < |s.received| ensures Parse(stod, s.received[k]) == Some(Envelope(s.requests[k])) {
      RequestIsOneLine(stod, show, s.requests[k]);
    }
  }

  // Progress

  /** While a call is under way, something can happen: the parties never wait for each other. */
  lemma NeverStuck(show: Show, ready: string, s: System) returns (a: Action)
    requires Invariant(show, ready, s) && !s.client.Idle?
    ensures Enabled(s, a) && !a.Acquire?
  {
    if s.serverOut != "" {
      a := Send(1);
    } else if s.toServer != "" {
      a := Fetch(1);
    } else if s.toClient != "" && !s.client.Writing? {
      a := Read(1);
    } else if s.client.Writing? {
      a := Write(1);
    } else {
      a := Answer("");
      if s.client.Starting? {
        FrontOfLine(s.client.buf, s.toClient + s.serverOut, ready);
      } else if |s.replies| == |s.results| {
        FrontOfLine(s.serverIn, s.toServer, RequestLine(show, s.requests[|s.results|]));
      } else {
        FrontOfLine(s.client.buf, s.toClient + s.serverOut, s.replies[|s.results|]);
      }
    }
  }

  /** Bytes still to be moved, counted once for each hop. */
  ghost function Work(s: System): nat {
    2 * (if s.client.Writing? then |s.client.left| else 0) + |s.toServer| + 2 * |s.serverOut| + |s.toClient|
  }

  /** Every step of a call in progress uses up a waiting request or moves bytes on, so every call returns. */
  lemma StepsAreUsedUp(show: Show, ready: string, s: System, a: Action)
    requires Invariant(show, ready, s) && Enabled(s, a) && !a.Acquire?
    ensures var t := Next(show, s, a);
            && |t.requests| == |s.requests|
            && (|t.replies| > |s.replies| || (|t.replies| == |s.replies| && Work(t) < Work(s)))
  {
  }

  /** From every reachable state the call under way can be brought to its end, without any new call. */
  lemma {:induction false} CallCompletes(show: Show, ready: string, s: System) returns (run: seq<Action>)
    requires Invariant(show, ready, s)
    ensures Possible(show, s, run) && After(show, s, run).client.Idle?
    ensures forall a :: a in run ==> !a.Acquire?
    decreases |s.requests| - |s.replies|, Work(s)
  {
    if s.client.Idle? {
      run := [];
    } else {
      var a := NeverStuck(show, ready, s);
      StepKeepsInvariant(show, ready, s, a);
      StepsAreUsedUp(show, ready, s, a);
      var rest := CallCompletes(show, ready, Next(show, s, a));
      run := [a] + rest;
      assert run[1..] == rest;
    }
  }

  // What a call makes of its reply line

  datatype CallResult =
    | Done(response: Json)
    | Failed(message: string)
    | Thrown  // `desc` is not a string: std::get throws out of `call`

  ghost function Lookup(v: Json, k: string): Option<Json> {
    if v.Obj? && k in AsMap(v.members) then Some(AsMap(v.members)[k]) else None
  }

  ghost function Classify(stod: Stod, line: string): CallResult {
    match Parse(stod, line)
    case None => Failed("json parse error: " + line[..if |line| < 200 then |line| else 200])
    case Some(v) =>
      match Lookup(v, "error")
      case None => Done(v)
      case Some(e) =>
        if !e.Str? then Failed("")
        else match Lookup(v, "desc")
             case None => Failed(e.s + ": ")
             case Some(d) => if d.Str? then Failed(e.s + ": " + d.s) else Thrown
  }

  ghost predicate HasMember(v: Json, k: string) {
    v.Obj? && k in AsMap(v.members)
  }

  ghost predicate HasText(v: Json, k: string, text: string) {
    v.Obj? && k in AsMap(v.members) && AsMap(v.members)[k] == Str(text)
  }

  /** A call succeeds exactly with a reply that can be parsed and has no error member. */
  lemma SuccessIsNoError(stod: Stod, line: string, v: Json)
    ensures Classify(stod, line) == Done(v) <==> Parse(stod, line) == Some(v) && !HasMember(v, "error")
  {
  }

  /** A line that cannot be parsed fails the call, with at most 200 characters of it in the message. */
  lemma UnparsableFails(stod: Stod, line: string)
    requires Parse(stod, line).None?
    ensures |line| <= 200 ==> Classify(stod, line) == Failed("json parse error: " + line)
    ensures forall front, rest :: line == front + rest && |front| == 200 ==>
                                    Classify(stod, line) == Failed("json parse error: " + front)
  {
    forall front, rest | line == front + rest && |front| == 200
      ensures Classify(stod, line) == Failed("json parse error: " + front)
    {
      assert line[..200] == front;
    }
    if |line| == 200 {
      assert line[..200] == line;
    }
  }

  /** An error member fails the call: its text, a colon and the description, if these are strings. */
  lemma ErrorFails(stod: Stod, line: string, v: Json)
    requires Parse(stod, line) == Some(v) && HasMember(v, "error")
    ensures forall e, d :: HasText(v, "error", e) && HasText(v, "desc", d) ==>
                             Classify(stod, line) == Failed(e + ": " + d)
    ensures forall e :: HasText(v, "error", e) && !HasMember(v, "desc") ==> Classify(stod, line) == Failed(e + ": ")
    ensures (forall e :: !HasText(v, "error", e)) ==> Classify(stod, line) == Failed("")
    ensures (exists e :: HasText(v, "error", e)) && HasMember(v, "desc") && (forall d :: !HasText(v, "desc", d))
            <==> Classify(stod, line) == Thrown
  {
    var error := AsMap(v.members)["error"];
    if error.Str? {
      assert HasText(v, "error", error.s);
      if HasMember(v, "desc") {
        var desc := AsMap(v.members)["desc"];
        if desc.Str? {
          assert HasText(v, "desc", desc.s);
        }
      }
    }
  }

  /** A value the server prints, in either layout, is what the call returns, unless it reports an error. */
  lemma ReplyIsReturned(stod: Stod, show: Show, v: Json, pretty: bool)
    requires Printable(v)
    ensures var r := Classify(stod, ValueText(show, v, pretty, 0));
            && (!HasMember(v, "error") <==> r == Done(v))
            && (forall e, d :: HasText(v, "error", e) && HasText(v, "desc", d) ==> r == Failed(e + ": " + d))
            && (forall e :: HasText(v, "error", e) && !HasMember(v, "desc") ==> r == Failed(e + ": "))
  {
    var text := ValueText(show, v, pretty, 0);
    IntegersRoundTrip(stod, show, v, pretty);
    SuccessIsNoError(stod, text, v);
    if HasMember(v, "error") {
      ErrorFails(stod, text, v);
    }
  }

  /** `count` and `at` of an object. */
  function Get(ms: seq<Member>, k: string): Option<Json> {
    if ms == [] then None else if ms[0].key == k then Some(ms[0].val) else Get(ms[1..], k)
  }

  lemma {:induction false} GetIsLookup(ms: seq<Member>, k: string)
    ensures Get(ms, k) == Lookup(Obj(ms), k)
  {
    if ms != [] {
      GetIsLookup(ms[1..], k);
    }
  }

  /** The end of `call`: what it makes of the line that was read. */
  method TakeReply(stod: Stod, line: string) returns (r: CallResult)
    ensures r == Classify(stod, line)
  {
    var parsed := ParseText(stod, line);
    if parsed.None? {
      return Failed("json parse error: " + line[..if |line| < 200 then |line| else 200]);
    }
    var v := parsed.value;
    if v.Obj? {
      GetIsLookup(v.members, "error");
      GetIsLookup(v.members, "desc");
      var error := Get(v.members, "error");
      if error.Some? {
        if !error.value.Str? {
          return Failed("");
        }
        var desc := Get(v.members, "desc");
        if desc.None? {
          return Failed(error.value.s + ": ");
        }
        return if desc.value.Str? then Failed(error.value.s + ": " + desc.value.s) else Thrown;
      }
    }
    return Done(v);
  }

  // The loops around `read` and `write`

  /** One turn of the read loop: the deadline check comes first. */
  datatype ReadEvent = Bytes(data: string) | Eof | Again | Error | Deadline

  function Data(e: ReadEvent): string {
    if e.Bytes? then e.data else ""
  }

  ghost function DataOf(events: seq<ReadEvent>): string {
    if events == [] then "" else Data(events[0]) + DataOf(events[1..])
  }

  lemma {:induction false} DataOfSnoc(events: seq<ReadEvent>, e: ReadEvent)
    ensures DataOf(events + [e]) == DataOf(events) + Data(e)
  {
    if events == [] {
      assert [e][1..] == [] && Data(e) + "" == "" + Data(e);
      assert events + [e] == [e];
    } else {
      assert (events + [e])[1..] == events[1..] + [e];
      DataOfSnoc(events[1..], e);
      Regroup(Data(events[0]), DataOf(events[1..]), Data(e));
    }
  }

  /**
   `read_one_line_blocking`: the line is everything before the first line break in the bytes read, and whatever was
   read behind it is lost. Running out of events stands for waiting.
   */
  method ReadOneLine(events: seq<ReadEvent>) returns (line: Option<string>, used: nat, ghost lost: string)
    ensures used <= |events|
    ensures line.Some? ==> DataOf(events[..used]) == line.value + "\n" + lost && '\n' !in line.value
    ensures line.Some? ==> used > 0 && '\n' !in DataOf(events[..used - 1])
    ensures forall k :: 0 <= k < used ==> events[k].Bytes? || events[k].Again?
    ensures line.None? ==> '\n' !in DataOf(events[..used])
    ensures line.None? ==> used == |events| || events[used].Eof? || events[used].Error? || events[used].Deadline?
  {
    var buf := "";
    used := 0;
    lost := "";
    while used < |events|
      invariant used <= |events| && buf == DataOf(events[..used]) && '\n' !in buf
      invariant forall k :: 0 <= k < used ==> events[k].Bytes? || events[k].Again?
    {
      assert events[..used + 1] == events[..used] + [events[used]];
      DataOfSnoc(events[..used], events[used]);
      match events[used] {
        case Bytes(data) =>
          buf := buf + data;
          used := used + 1;
          var i := BreakAt(buf);
          if i < |buf| {
            lost := buf[i + 1..];
            assert buf == buf[..i] + "\n" + lost;
            assert events[..used - 1] == events[..used][..used - 1];
            return Some(buf[..i]), used, lost;
          }
        case Again => used := used + 1;
        case _ => return None, used, lost;
      }
    }
    return None, used, lost;
  }

  datatype WriteEvent = Wrote(n: nat) | Interrupted | Broken

  ghost function Written(events: seq<WriteEvent>): nat {
    if events == [] then 0
    else Written(events[..|events| - 1]) + if events[|events| - 1].Wrote? then events[|events| - 1].n else 0
  }

  /** A write that puts the loop to an end: an error, or nothing written. */
  predicate Fails(e: WriteEvent) {
    e == Broken || e == Wrote(0)
  }

  /** `count` more bytes of the line. */
  function Extended(line: string, sent: string, count: nat): (more: string)
    requires sent <= line && |sent| + count <= |line|
    ensures more <= line && |more| == |sent| + count
  {
    sent + line[|sent|..|sent| + count]
  }

  /**
   The write loop of `call`: what reaches the pipe is the front of the line that the writes have taken, all of it
   unless a write fails. No write follows one that failed, nor the one that took the last byte.
   */
  method WriteAll(line: string, events: seq<WriteEvent>) returns (sent: string, used: nat)
    ensures sent <= line && used <= |events|
    ensures |sent| == if |line| < Written(events[..used]) then |line| else Written(events[..used])
    ensures sent != line ==> used == |events| || Fails(events[used])
    ensures forall k :: 0 <= k < used ==> !Fails(events[k]) && Written(events[..k]) < |line|
  {
    sent, used := "", 0;
    while |sent| < |line| && used < |events|
      invariant sent <= line && used <= |events|
      invariant |sent| == if |line| < Written(events[..used]) then |line| else Written(events[..used])
      invariant forall k :: 0 <= k < used ==> !Fails(events[k]) && Written(events[..k]) < |line|
    {
      assert events[..used + 1][..used] == events[..used];
      match events[used] {
        case Wrote(n) =>
          if n == 0 {
            return;
          }
          var left := |line| - |sent|;
          sent := Extended(line, sent, if n < left then n else left);
        case Interrupted =>
        case Broken => return;
      }
      used := used + 1;
    }
  }
}
