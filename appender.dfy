/**
  LogentriesAppender: the producer side (Append, addLine), the start gate
  (checkCredentials), the connection manager (openConnection,
  closeConnection, reopenConnection with its back-off loop) and the
  worker (run_loop). The worker runs here as a sequential method, and the
  outcome of every connect attempt and every write comes from a script.
 */
module LogentriesAppender {
  import opened Outcomes
  import opened Framing
  import opened Backoff
  import opened Endpoint
  import opened Credentials
  import opened DeliveryQueue
  import opened Transport

  /**
    The scripts for delivering one line: its writes, and for the j-th failed
    write the connect attempts of the reconnect that follows it.
   */
  datatype Plan = Plan(writes: seq<bool>, reconnects: seq<seq<bool>>)

  /** Some write of the line succeeds and every reconnect before it finds a successful attempt. */
  predicate Feasible(p: Plan) {
    && true in p.writes
    && FirstTrue(p.writes) <= |p.reconnects|
    && forall j :: 0 <= j < FirstTrue(p.writes) ==> true in p.reconnects[j]
  }

  /** How many writes fail before each line of the plans goes through. */
  function FailedWrites(plans: seq<Plan>): (r: seq<nat>)
    requires forall i :: 0 <= i < |plans| ==> Feasible(plans[i])
    ensures |r| == |plans|
  {
    if plans == [] then []
    else
      var last := plans[|plans| - 1];
      assert Feasible(last);
      FailedWrites(plans[..|plans| - 1]) + [FirstTrue(last.writes)]
  }

  /** One more plan adds its first successful write's index to FailedWrites. */
  lemma FailedWritesStep(plans: seq<Plan>, i: nat)
    requires forall i :: 0 <= i < |plans| ==> Feasible(plans[i])
    requires i < |plans|
    ensures FailedWrites(plans[..i + 1]) == FailedWrites(plans[..i]) + [FirstTrue(plans[i].writes)]
  {
    assert plans[..i + 1][..i] == plans[..i];
  }

  /** The i-th entry of FailedWrites is the index of the first successful write of the i-th plan. */
  lemma {:induction false} FailedWritesAt(plans: seq<Plan>, i: nat)
    requires forall i :: 0 <= i < |plans| ==> Feasible(plans[i])
    requires i < |plans|
    ensures FailedWrites(plans)[i] == FirstTrue(plans[i].writes)
    decreases |plans|
  {
    if i < |plans| - 1 {
      var init := plans[..|plans| - 1];
      assert init[i] == plans[i];
      FailedWritesAt(init, i);
    }
  }

  /** What a successful openConnection writes: the request line in HTTP PUT mode, nothing in token mode. */
  function Handshake(httpPut: bool, d: Destination): seq<string> {
    if httpPut then [Header(d.key, d.location)] else []
  }

  /** What the endpoint receives while a line is delivered after `failures` failed writes. */
  function Delivery(httpPut: bool, d: Destination, nl: NewLine, line: string, failures: nat): seq<string> {
    Repeat(Handshake(httpPut, d), failures) + [Frame(httpPut, d.token, line, nl)]
  }

  /** What the endpoint receives while the lines are delivered one after another. */
  function Transcript(httpPut: bool, d: Destination, nl: NewLine, lines: seq<string>, failures: seq<nat>): seq<string>
    requires |lines| == |failures|
  {
    if lines == [] then []
    else Transcript(httpPut, d, nl, lines[..|lines| - 1], failures[..|failures| - 1])
         + Delivery(httpPut, d, nl, lines[|lines| - 1], failures[|failures| - 1])
  }

  /** Delivering one more line extends the transcript by that line's delivery. */
  lemma TranscriptStep(httpPut: bool, d: Destination, nl: NewLine, lines: seq<string>, failures: seq<nat>, i: nat, f: nat)
    requires i < |lines| && |failures| == i
    ensures Transcript(httpPut, d, nl, lines[..i + 1], failures + [f])
         == Transcript(httpPut, d, nl, lines[..i], failures) + Delivery(httpPut, d, nl, lines[i], f)
  {
    assert lines[..i + 1][..i] == lines[..i];
    assert (failures + [f])[..i] == failures;
  }

  lemma ConcatAssoc<T>(a: seq<T>, b: seq<T>, c: seq<T>)
    ensures (a + b) + c == a + (b + c)
  {
  }

  /** The frames of the lines, in order. */
  function Frames(httpPut: bool, token: string, nl: NewLine, lines: seq<string>): (r: seq<string>)
    ensures |r| == |lines|
    ensures forall i :: 0 <= i < |lines| ==> r[i] == Frame(httpPut, token, lines[i], nl)
  {
    if lines == [] then [] else Frames(httpPut, token, nl, lines[..|lines| - 1]) + [Frame(httpPut, token, lines[|lines| - 1], nl)]
  }

  /**
    In token mode reconnects write nothing, so the endpoint receives each
    line's frame exactly once, in queue order, however many writes failed.
   */
  lemma {:induction false} TokenTranscriptIsFrames(d: Destination, nl: NewLine, lines: seq<string>, failures: seq<nat>)
    requires |lines| == |failures|
    ensures Transcript(false, d, nl, lines, failures) == Frames(false, d.token, nl, lines)
    decreases |lines|
  {
    if lines != [] {
      TokenTranscriptIsFrames(d, nl, lines[..|lines| - 1], failures[..|failures| - 1]);
      assert Repeat(Handshake(false, d), failures[|failures| - 1]) == [];
    }
  }

  /**
    The HTTP transcript without its request lines is the frames of the lines,
    each exactly once and in queue order: a request line is never mistaken
    for a frame, or a frame for a request line.
   */
  lemma {:induction false} HttpTranscriptFrames(d: Destination, nl: NewLine, lines: seq<string>, failures: seq<nat>)
    requires |lines| == |failures|
    ensures DropAll(Transcript(true, d, nl, lines, failures), Header(d.key, d.location)) == Frames(true, d.token, nl, lines)
    decreases |lines|
  {
    if lines != [] {
      var n := |lines| - 1;
      var init := Transcript(true, d, nl, lines[..n], failures[..n]);
      var delivery := Delivery(true, d, nl, lines[n], failures[n]);
      assert Transcript(true, d, nl, lines, failures) == init + delivery;
      assert Frames(true, d.token, nl, lines) == Frames(true, d.token, nl, lines[..n]) + [Frame(true, d.token, lines[n], nl)];
      HttpTranscriptFrames(d, nl, lines[..n], failures[..n]);
      DeliveryWithoutHeaders(d, nl, lines[n], failures[n]);
      DropAllConcat(init, delivery, Header(d.key, d.location));
    }
  }

  /** The delivery of one line in HTTP PUT mode without its request lines is that line's frame. */
  lemma DeliveryWithoutHeaders(d: Destination, nl: NewLine, line: string, failures: nat)
    ensures DropAll(Delivery(true, d, nl, line, failures), Header(d.key, d.location)) == [Frame(true, d.token, line, nl)]
  {
    var h := Header(d.key, d.location);
    var f := Frame(true, d.token, line, nl);
    DropAllRepeat([h], failures, h);
    FrameIsNeverHeader(true, "", line, nl, d.key, d.location);
    assert DropAll([f], h) == [f];
    DropAllConcat(Repeat([h], failures), [f], h);
  }

  /** s with every entry equal to x removed. */
  function DropAll(s: seq<string>, x: string): (r: seq<string>)
    ensures |r| <= |s|
    ensures x !in r
    decreases |s|
  {
    if s == [] then [] else (if s[0] == x then [] else [s[0]]) + DropAll(s[1..], x)
  }

  lemma {:induction false} DropAllConcat(a: seq<string>, b: seq<string>, x: string)
    ensures DropAll(a + b, x) == DropAll(a, x) + DropAll(b, x)
    decreases |a|
  {
    if a == [] {
      assert a + b == b;
    } else {
      assert (a + b)[0] == a[0] && (a + b)[1..] == a[1..] + b;
      DropAllConcat(a[1..], b, x);
    }
  }

  lemma {:induction false} DropAllRepeat(s: seq<string>, n: nat, x: string)
    requires forall i :: 0 <= i < |s| ==> s[i] == x
    ensures DropAll(Repeat(s, n), x) == []
  {
    if n > 0 {
      DropAllRepeat(s, n - 1, x);
      DropAllConcat(Repeat(s, n - 1), s, x);
      DropAllOfOnly(s, x);
    }
  }

  lemma {:induction false} DropAllOfOnly(s: seq<string>, x: string)
    requires forall i :: 0 <= i < |s| ==> s[i] == x
    ensures DropAll(s, x) == []
    decreases |s|
  {
    if s != [] {
      DropAllOfOnly(s[1..], x);
    }
  }

  /**
    The start gate over a batch of n events with the same settings: until an
    event finds the appender started, each one runs the credential check
    once. It returns whether the appender ends started and its destination.
   */
  function Gate(httpPut: bool, started: bool, d: Destination, settings: map<string, string>,
                guids: iset<string>, n: nat): (r: (bool, Destination))
    ensures started ==> r == (started, d)
    ensures !started && n > 0 && Check(httpPut, d, settings, guids).accepted
            ==> r == (true, Check(httpPut, d, settings, guids).dest)
    decreases n
  {
    if started || n == 0 then (started, d)
    else
      var v := Check(httpPut, d, settings, guids);
      Gate(httpPut, v.accepted, v.dest, settings, guids, n - 1)
  }

  /** One more event extends the gate by that event's outcome, as Append states it. */
  lemma {:induction false} GateExtend(httpPut: bool, started: bool, d: Destination, settings: map<string, string>,
                                      guids: iset<string>, n: nat, s: bool, e: Destination, s': bool, e': Destination)
    requires (s, e) == Gate(httpPut, started, d, settings, guids, n)
    requires s ==> s' && e' == e
    requires !s ==> var v := Check(httpPut, e, settings, guids); s' == v.accepted && e' == v.dest
    ensures (s', e') == Gate(httpPut, started, d, settings, guids, n + 1)
    decreases n
  {
    if !started && n > 0 {
      var v := Check(httpPut, d, settings, guids);
      GateExtend(httpPut, v.accepted, v.dest, settings, guids, n - 1, s, e, s', e');
    }
  }

  /** A destination the check leaves rejected and unchanged stays so for any number of events. */
  lemma {:induction false} GateStuck(httpPut: bool, d: Destination, settings: map<string, string>,
                                     guids: iset<string>, n: nat)
    requires Check(httpPut, d, settings, guids) == Verdict(false, d)
    ensures Gate(httpPut, false, d, settings, guids, n) == (false, d)
    decreases n
  {
    if n > 0 {
      GateStuck(httpPut, d, settings, guids, n - 1);
    }
  }

  /**
    A batch decides the gate within its first two events: a longer batch ends
    in the same state as one of two events.
   */
  lemma GateSettles(httpPut: bool, started: bool, d: Destination, settings: map<string, string>,
                    guids: iset<string>, n: nat)
    requires n >= 2
    ensures Gate(httpPut, started, d, settings, guids, n) == Gate(httpPut, started, d, settings, guids, 2)
  {
    if !started {
      var v1 := Check(httpPut, d, settings, guids);
      if !v1.accepted {
        var v2 := Check(httpPut, v1.dest, settings, guids);
        if !v2.accepted {
          CheckSettles(httpPut, d, settings, guids);
          GateStuck(httpPut, v2.dest, settings, guids, n - 2);
        }
      }
    }
  }

  class Appender {
    const httpPut: bool
    const ssl: bool
    /** Environment.NewLine of the host. */
    const newLine: NewLine
    /** The strings Guid.TryParse accepts. */
    const guids: iset<string>
    var token: string
    var key: string
    var location: string
    var started: bool
    /** How many times the worker thread was started. */
    var workerStarts: nat
    const queue: BoundedQueue
    var client: TcpClient?

    ghost predicate Valid()
      reads this, queue
    {
      && queue.Valid() && queue.capacity == QueueSize
      && workerStarts == (if started then 1 else 0)
      && (started ==> Usable(httpPut, Dest(), guids))
      && (client != null ==> client.port == Port(httpPut, ssl) && client.sslChoice == ssl)
    }

    function Dest(): Destination
      reads this
    {
      Destination(token, key, location)
    }

    /** Everything the endpoint has received. */
    ghost function Sent(): seq<string>
      reads this, client
    {
      if client == null then [] else client.received
    }

    constructor (token: string, key: string, location: string, httpPut: bool, ssl: bool,
                 newLine: NewLine, guids: iset<string>)
      ensures Valid() && fresh(queue)
      ensures Dest() == Destination(token, key, location)
      ensures this.httpPut == httpPut && this.ssl == ssl && this.newLine == newLine && this.guids == guids
      ensures queue.items == [] && !started && client == null
    {
      this.token, this.key, this.location := token, key, location;
      this.httpPut, this.ssl, this.newLine, this.guids := httpPut, ssl, newLine, guids;
      started, workerStarts := false, 0;
      queue := new BoundedQueue(QueueSize);
      client := null;
    }

    /** addLine: never blocks; a full queue gives up its oldest line. */
    method AddLine(line: string)
      requires Valid()
      modifies queue
      ensures Valid()
      ensures queue.items == Offer(old(queue.items), line, QueueSize)
    {
      var added := queue.TryAdd(line);
      if !added {
        var oldest := queue.Take();
        added := queue.TryAdd(line);
      }
    }

    /** checkCredentials: the verdict, and the identity fields as the check leaves them. */
    method CheckCredentials(settings: map<string, string>) returns (ok: bool)
      requires Valid()
      modifies this`token, this`key, this`location
      ensures Valid()
      ensures Verdict(ok, Dest()) == Check(httpPut, old(Dest()), settings, guids)
    {
      if !httpPut {
        if ValidUuid(guids, token) {
          return true;
        }
        if ConfigToken in settings && ValidUuid(guids, settings[ConfigToken]) {
          token := settings[ConfigToken];
          return true;
        }
        return false;
      }
      if key != "" && ValidUuid(guids, key) && location != "" {
        return true;
      }
      if ConfigAccountKey in settings && ValidUuid(guids, settings[ConfigAccountKey]) {
        key := settings[ConfigAccountKey];
        if ConfigLocation in settings && settings[ConfigLocation] != "" {
          location := settings[ConfigLocation];
          return true;
        }
      }
      return false;
    }

    /**
      Append for one rendered event: until the worker has started, each call
      checks the credentials and starts the worker when they pass; then the
      event, trailing LFs trimmed, is queued.
     */
    method Append(rendered: string, settings: map<string, string>)
      requires Valid()
      modifies this`token, this`key, this`location, this`started, this`workerStarts, queue
      ensures Valid()
      ensures old(started) ==> started && Dest() == old(Dest())
      ensures !old(started) ==>
        var v := Check(httpPut, old(Dest()), settings, guids);
        started == v.accepted && Dest() == v.dest
      ensures queue.items == Offer(old(queue.items), TrimEnd(rendered), QueueSize)
    {
      if !started {
        var ok := CheckCredentials(settings);
        if ok {
          workerStarts := workerStarts + 1;
          started := true;
        }
      }
      var line := TrimEnd(rendered);
      AddLine(line);
    }

    /** Append for a batch of rendered events: each in turn. */
    method AppendAll(events: seq<string>, settings: map<string, string>)
      requires Valid()
      modifies this`token, this`key, this`location, this`started, this`workerStarts, queue
      ensures Valid()
      ensures old(started) ==> started && Dest() == old(Dest())
      ensures (started, Dest()) == Gate(httpPut, old(started), old(Dest()), settings, guids, |events|)
      ensures queue.items == OfferAll(old(queue.items), TrimEach(events), QueueSize)
    {
      ghost var trimmed := TrimEach(events);
      ghost var started0, d0 := started, Dest();
      for i := 0 to |events|
        invariant Valid()
        invariant old(started) ==> started && Dest() == old(Dest())
        invariant (started, Dest()) == Gate(httpPut, started0, d0, settings, guids, i)
        invariant OfferAll(old(queue.items), trimmed, QueueSize) == OfferAll(queue.items, trimmed[i..], QueueSize)
      {
        assert trimmed[i..][1..] == trimmed[i + 1..];
        ghost var before, dBefore := started, Dest();
        Append(events[i], settings);
        GateExtend(httpPut, started0, d0, settings, guids, i, before, dBefore, started, Dest());
      }
    }

    /** openConnection: creates the client on first use, connects, and in HTTP PUT mode sends the request line. */
    method OpenConnection(succeeds: bool) returns (ok: bool)
      requires Valid()
      modifies this`client, client
      ensures Valid() && client != null
      ensures old(client) != null ==> client == old(client)
      ensures old(client) == null ==> fresh(client)
      ensures ok == succeeds && client.connected == ok
      ensures Sent() == old(Sent()) + (if ok then Handshake(httpPut, Dest()) else [])
    {
      if client == null {
        client := new TcpClient(httpPut, ssl);
      }
      ok := client.Connect(succeeds);
      if ok && httpPut {
        var header := Header(key, location);
        var written := client.Write(header, true);
      }
    }

    /** closeConnection. */
    method CloseConnection()
      requires Valid()
      modifies client
      ensures Valid()
      ensures client != null ==> !client.connected
      ensures Sent() == old(Sent())
    {
      if client != null {
        client.Close();
      }
    }

    /**
      reopenConnection: closes, then tries openConnection until one attempt
      succeeds. root_delay starts at MIN_DELAY on every call; before each
      sleep it is doubled and capped, and the sleep is root_delay plus a
      random amount below root_delay.
     */
    method ReopenConnection(connects: seq<bool>) returns (attempts: nat, bases: seq<int>, waits: seq<int>)
      requires Valid() && true in connects
      modifies this`client, client
      ensures Valid() && client != null && client.connected
      ensures old(client) != null ==> client == old(client)
      ensures old(client) == null ==> fresh(client)
      ensures attempts == FirstTrue(connects) + 1
      ensures |bases| == |waits| == attempts - 1
      ensures forall i :: 0 <= i < |bases| ==> bases[i] == Delay(i + 1) && JitteredWait(bases[i], waits[i])
      ensures Sent() == old(Sent()) + Handshake(httpPut, Dest())
    {
      CloseConnection();
      var rootDelay := MinDelay;
      attempts, bases, waits := 0, [], [];
      while true
        invariant Valid()
        invariant old(client) != null ==> client == old(client)
        invariant old(client) == null ==> client == null || fresh(client)
        invariant attempts <= FirstTrue(connects)
        invariant rootDelay == Delay(attempts)
        invariant |bases| == |waits| == attempts
        invariant forall i :: 0 <= i < |bases| ==> bases[i] == Delay(i + 1) && JitteredWait(bases[i], waits[i])
        invariant Sent() == old(Sent())
        decreases FirstTrue(connects) - attempts
      {
        var ok := OpenConnection(connects[attempts]);
        attempts := attempts + 1;
        if ok {
          return;
        }
        rootDelay := rootDelay * 2;
        if rootDelay > MaxDelay {
          rootDelay := MaxDelay;
        }
        var jitter :| 0 <= jitter < rootDelay;
        bases := bases + [rootDelay];
        waits := waits + [rootDelay + jitter];
      }
    }

    /**
      One round of run_loop: take the oldest line, frame it, and write it;
      after each failed write reconnect and write the same frame again,
      until a write succeeds.
     */
    method ShipNext(p: Plan) returns (retries: nat)
      requires Valid() && started
      requires client != null && client.connected
      requires |queue.items| > 0
      requires Feasible(p)
      modifies this`client, client, queue
      ensures Valid() && client == old(client) && client.connected
      ensures queue.items == old(queue.items)[1..]
      ensures retries == FirstTrue(p.writes)
      ensures Sent() == old(Sent()) + Delivery(httpPut, Dest(), newLine, old(queue.items)[0], retries)
    {
      var line := queue.Take();
      var finalLine := Frame(httpPut, token, line, newLine);
      retries := WriteUntilSent(finalLine, p);
    }

    /** The write-retry loop of run_loop: a failed write reconnects and writes the same frame again. */
    method WriteUntilSent(finalLine: string, p: Plan) returns (retries: nat)
      requires Valid() && started
      requires client != null && client.connected
      requires Feasible(p)
      modifies this`client, client
      ensures Valid() && client == old(client) && client.connected
      ensures retries == FirstTrue(p.writes)
      ensures Sent() == old(Sent()) + Repeat(Handshake(httpPut, Dest()), retries) + [finalLine]
    {
      ghost var failures := FirstTrue(p.writes);
      retries := 0;
      while true
        invariant Valid() && client == old(client) && client.connected
        invariant retries <= failures
        invariant Sent() == old(Sent()) + Repeat(Handshake(httpPut, Dest()), retries)
        decreases failures - retries
      {
        var ok := client.Write(finalLine, p.writes[retries]);
        if ok {
          return;
        }
        assert retries != failures;
        var attempts, bases, waits := ReopenConnection(p.reconnects[retries]);
        retries := retries + 1;
      }
    }

    /**
      run_loop, for as many lines as there are plans: connect with back-off,
      then deliver the oldest queued lines one after another.
     */
    method RunLoop(initial: seq<bool>, plans: seq<Plan>) returns (retries: seq<nat>)
      requires Valid() && started
      requires true in initial
      requires |plans| <= |queue.items|
      requires forall i :: 0 <= i < |plans| ==> Feasible(plans[i])
      modifies this`client, client, queue
      ensures Valid() && client != null && client.connected
      ensures old(client) != null ==> client == old(client)
      ensures old(client) == null ==> fresh(client)
      ensures queue.items == old(queue.items)[|plans|..]
      ensures |retries| == |plans|
      ensures retries == FailedWrites(plans)
      ensures Sent() == old(Sent()) + Handshake(httpPut, Dest())
                        + Transcript(httpPut, Dest(), newLine, old(queue.items)[..|plans|], retries)
    {
      var attempts, bases, waits := ReopenConnection(initial);
      retries := ShipAll(plans);
    }

    /** The body of run_loop's outer loop, once per plan: deliver the oldest line. */
    method ShipAll(plans: seq<Plan>) returns (retries: seq<nat>)
      requires Valid() && started
      requires client != null && client.connected
      requires |plans| <= |queue.items|
      requires forall i :: 0 <= i < |plans| ==> Feasible(plans[i])
      modifies this`client, client, queue
      ensures Valid() && client == old(client) && client.connected
      ensures queue.items == old(queue.items)[|plans|..]
      ensures |retries| == |plans|
      ensures retries == FailedWrites(plans)
      ensures Sent() == old(Sent()) + Transcript(httpPut, Dest(), newLine, old(queue.items)[..|plans|], retries)
    {
      ghost var lines := queue.items;
      ghost var before := Sent();
      ghost var d := Dest();
      retries := [];
      var i := 0;
      while i < |plans|
        invariant 0 <= i <= |plans|
        invariant Valid() && client == old(client) && client.connected
        invariant queue.items == lines[i..]
        invariant |retries| == i
        invariant retries == FailedWrites(plans[..i])
        invariant Dest() == d
        invariant Sent() == before + Transcript(httpPut, d, newLine, lines[..i], retries)
      {
        ghost var sent := Sent();
        var r := ShipNext(plans[i]);
        TranscriptStep(httpPut, d, newLine, lines, retries, i, r);
        ghost var t := Transcript(httpPut, d, newLine, lines[..i], retries);
        ghost var dl := Delivery(httpPut, d, newLine, lines[i], r);
        assert Sent() == sent + dl;
        ConcatAssoc(before, t, dl);
        FailedWritesStep(plans, i);
        retries := retries + [r];
        i := i + 1;
      }
      assert plans[..i] == plans;
    }
  }
}
