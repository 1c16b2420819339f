/**
 The TCP side of audit-syslog-bridge/main.go: octet-counted frames (section 3.4.1 of
 RFC 6587) sent over a connection that is dialed lazily, reused, and replaced when it
 fails. What the network does at each step is a parameter; text is one char per byte.
 */
module SyslogForwarder {
  import opened Wrappers
  import opened Decimal

  // ---------------------------------------------------------------- framing

  function Frame(msg: string): (f: string)
    ensures |f| > |msg|
  {
    Show(|msg|) + ([' '] + msg)
  }

  /** Where the first space is; the length when there is none. */
  function FirstSpace(s: string): (n: nat)
    ensures n <= |s| && (forall i :: 0 <= i < n ==> s[i] != ' ') && (n < |s| ==> s[n] == ' ')
  {
    if s == "" || s[0] == ' ' then 0 else 1 + FirstSpace(s[1..])
  }

  /** The length of the whole frame at the front of `s`, header included, if there is one. */
  function FrontFrame(s: string): (r: Option<nat>)
    ensures r.Some? ==> FirstSpace(s) < r.value <= |s|
  {
    var sp := FirstSpace(s);
    if sp == 0 || sp == |s| || !AllDigits(s[..sp]) || sp + 1 + Value(s[..sp]) > |s| then None
    else Some(sp + 1 + Value(s[..sp]))
  }

  /** What a collector reads from a stream: the whole messages in order, and what is left over. */
  function Deframe(s: string): (seq<string>, string) {
    match FrontFrame(s)
    case None => ([], s)
    case Some(n) =>
      var rest := Deframe(s[n..]);
      ([s[FirstSpace(s) + 1..n]] + rest.0, rest.1)
  }

  function Encode(msgs: seq<string>): string { if msgs == [] then "" else Encode(msgs[..|msgs| - 1]) + Frame(msgs[|msgs| - 1]) }

  lemma {:induction false} SpaceAfterDigits(d: string, rest: string)
    requires AllDigits(d)
    ensures FirstSpace(d + ([' '] + rest)) == |d|
    decreases |d|
  {
    var s := d + ([' '] + rest);
    if d != "" {
      assert s[1..] == d[1..] + ([' '] + rest);
      assert forall i :: 0 <= i < |d[1..]| ==> d[1..][i] == d[i + 1];
      SpaceAfterDigits(d[1..], rest);
    }
  }

  lemma {:induction false} NoSpaceInDigits(d: string)
    requires AllDigits(d)
    ensures FirstSpace(d) == |d|
  {
    if d != "" {
      assert forall i :: 0 <= i < |d[1..]| ==> d[1..][i] == d[i + 1];
      NoSpaceInDigits(d[1..]);
    }
  }

  lemma {:induction false} FrontOfFrame(msg: string, rest: string)
    ensures var s := Frame(msg) + rest;
            && FirstSpace(s) == |Show(|msg|)| && FrontFrame(s) == Some(|Frame(msg)|)
            && s[|Show(|msg|)| + 1..|Frame(msg)|] == msg && s[|Frame(msg)|..] == rest
  {
    var d := Show(|msg|);
    var s := Frame(msg) + rest;
    assert s == d + ([' '] + (msg + rest));
    SpaceAfterDigits(d, msg + rest);
    ValueOfShow(|msg|);
    assert s[..|d|] == d;
  }

  lemma {:induction false} DeframeFirst(msg: string, rest: string, s: string, msgs: seq<string>, left: string)
    requires s == Frame(msg) + rest && Deframe(rest) == (msgs, left)
    ensures Deframe(s) == ([msg] + msgs, left)
  {
    FrontOfFrame(msg, rest);
  }

  /** A frame cut short yields no message. */
  lemma {:induction false} CutFrameYieldsNothing(msg: string, n: nat)
    requires n < |Frame(msg)|
    ensures Deframe(Frame(msg)[..n]) == ([], Frame(msg)[..n])
  {
    var d := Show(|msg|);
    var cut := Frame(msg)[..n];
    if n <= |d| {
      assert cut == d[..n];
      NoSpaceInDigits(cut);
    } else {
      assert cut == d + ([' '] + msg[..n - |d| - 1]);
      SpaceAfterDigits(d, msg[..n - |d| - 1]);
      ValueOfShow(|msg|);
      assert cut[..|d|] == d;
    }
  }

  lemma {:induction false} EncodeFirst(msgs: seq<string>)
    requires msgs != []
    ensures Encode(msgs) == Frame(msgs[0]) + Encode(msgs[1..])
  {
    if |msgs| == 1 {
      assert msgs[..0] == [] && msgs[1..] == [];
    } else {
      EncodeFirst(msgs[..|msgs| - 1]);
      assert msgs[..|msgs| - 1][1..] == msgs[1..][..|msgs| - 2];
      Regroup(Frame(msgs[0]), Encode(msgs[1..][..|msgs| - 2]), Frame(msgs[|msgs| - 1]));
    }
  }

  /** Deframing recovers the whole messages in order, and leaves what follows them to be read on its own. */
  lemma {:induction false} DeframeEncoded(msgs: seq<string>, rest: string, more: seq<string>, left: string)
    requires Deframe(rest) == (more, left)
    ensures Deframe(Encode(msgs) + rest) == (msgs + more, left)
  {
    if msgs == [] {
      assert Encode(msgs) + rest == rest && msgs + more == more;
    } else {
      EncodeFirst(msgs);
      Regroup(Frame(msgs[0]), Encode(msgs[1..]), rest);
      DeframeEncoded(msgs[1..], rest, more, left);
      DeframeFirst(msgs[0], Encode(msgs[1..]) + rest, Encode(msgs) + rest, msgs[1..] + more, left);
      FirstAndRest(msgs, more);
    }
  }

  lemma {:induction false} Regroup(a: string, b: string, c: string)
    ensures (a + b) + c == a + (b + c)
  {
  }

  lemma {:induction false} FirstAndRest(msgs: seq<string>, more: seq<string>)
    requires msgs != []
    ensures [msgs[0]] + (msgs[1..] + more) == msgs + more
  {
  }

  // ---------------------------------------------------------------- sending

  /** A connection: all it was given, the messages written to it whole, and what a failed write left behind them. */
  datatype Conn = Conn(stream: string, sent: seq<string>, cut: string)

  /** How a write ends: with the whole frame sent, or with an error after any part of it. */
  datatype Write = Works | Fails(after: nat)

  /** What the network does during one send. */
  datatype Weather = Weather(alive: bool, dial: bool, write: Write, redial: bool, rewrite: Write)

  /** The connections ever opened, oldest first, and whether the last one is in use. */
  datatype Forwarder = Forwarder(conns: seq<Conn>, open: bool)

  predicate Usable(f: Forwarder) { f.open ==> f.conns != [] }

  function Dial(f: Forwarder): Forwarder { Forwarder(f.conns + [Conn("", [], "")], true) }

  function Min(a: nat, b: nat): nat { if a <= b then a else b }

  function WriteTo(c: Conn, msg: string, w: Write): Conn {
    if w.Works? then Conn(c.stream + Frame(msg), c.sent + [msg], c.cut)
    else
      var part := Frame(msg)[..Min(w.after, |Frame(msg)|)];
      Conn(c.stream + part, c.sent, c.cut + part)
  }

  /** A failed write closes the connection. */
  function WriteLast(f: Forwarder, msg: string, w: Write): Forwarder
    requires f.conns != []
  {
    var last := |f.conns| - 1;
    Forwarder(f.conns[last := WriteTo(f.conns[last], msg, w)], w.Works?)
  }

  function Send(f: Forwarder, msg: string, w: Weather): (Forwarder, bool)
    requires Usable(f)
  {
    if f.open && w.alive then Deliver(f, msg, w)
    else if !w.dial then (f.(open := false), false)
    else Deliver(Dial(f), msg, w)
  }

  /** One write, and on failure one more over a fresh connection. */
  function Deliver(f: Forwarder, msg: string, w: Weather): (Forwarder, bool)
    requires f.conns != []
  {
    var first := WriteLast(f, msg, w.write);
    if w.write.Works? then (first, true)
    else if !w.redial then (first, false)
    else (WriteLast(Dial(first), msg, w.rewrite), w.rewrite.Works?)
  }

  // ---------------------------------------------------------------- what every connection carries

  predicate IsPrefix(a: string, b: string) { |a| <= |b| && b[..|a|] == a }

  /** A front part of the frame of one of these messages. */
  ghost predicate CutOf(cut: string, tried: set<string>) { exists msg :: msg in tried && IsPrefix(cut, Frame(msg)) }

  /** Whole frames, then at most one that was cut, and nothing after it. */
  ghost predicate ConnOk(c: Conn, tried: set<string>) {
    c.stream == Encode(c.sent) + c.cut && (c.cut == "" || CutOf(c.cut, tried))
  }

  ghost predicate Ok(f: Forwarder, tried: set<string>) {
    && Usable(f) && (forall i :: 0 <= i < |f.conns| ==> ConnOk(f.conns[i], tried))
    && (f.open ==> f.conns[|f.conns| - 1].cut == "")
  }

  lemma {:induction false} OkMore(f: Forwarder, tried: set<string>, msg: string)
    requires Ok(f, tried)
    ensures Ok(f, tried + {msg})
  {
    forall i | 0 <= i < |f.conns|
      ensures ConnOk(f.conns[i], tried + {msg})
    {
      var c := f.conns[i];
      if c.cut != "" {
        var m :| m in tried && IsPrefix(c.cut, Frame(m));
        assert m in tried + {msg};
      }
    }
  }

  lemma {:induction false} WriteKeeps(c: Conn, msg: string, w: Write, tried: set<string>)
    requires ConnOk(c, tried) && c.cut == "" && msg in tried
    ensures ConnOk(WriteTo(c, msg, w), tried) && (w.Works? ==> WriteTo(c, msg, w).cut == "")
  {
    var c' := WriteTo(c, msg, w);
    if w.Works? {
      EncodeMore(c.sent, msg);
      NothingCut(Encode(c.sent), Frame(msg));
    } else {
      Regroup(Encode(c.sent), "", c'.cut);
      assert "" + Frame(msg)[..Min(w.after, |Frame(msg)|)] == c'.cut;
      assert IsPrefix(c'.cut, Frame(msg));
    }
  }

  lemma {:induction false} EncodeMore(msgs: seq<string>, msg: string)
    ensures Encode(msgs + [msg]) == Encode(msgs) + Frame(msg)
  {
    assert (msgs + [msg])[..|msgs|] == msgs;
  }

  lemma {:induction false} NothingCut(a: string, b: string)
    ensures a + "" + b == a + b + ""
  {
  }

  lemma {:induction false} WriteLastKeeps(f: Forwarder, msg: string, w: Write, tried: set<string>)
    requires Ok(f, tried) && f.open && msg in tried
    ensures Ok(WriteLast(f, msg, w), tried)
  {
    WriteKeeps(f.conns[|f.conns| - 1], msg, w, tried);
  }

  lemma {:induction false} DialKeeps(f: Forwarder, tried: set<string>)
    requires Ok(f, tried)
    ensures Ok(Dial(f), tried) && Dial(f).open
  {
    assert Encode([]) + "" == "";
  }

  lemma {:induction false} DeliverKeeps(f: Forwarder, msg: string, w: Weather, tried: set<string>)
    requires Ok(f, tried) && f.open && msg in tried
    ensures Ok(Deliver(f, msg, w).0, tried)
  {
    WriteLastKeeps(f, msg, w.write, tried);
    var first := WriteLast(f, msg, w.write);
    if !w.write.Works? && w.redial {
      DialKeeps(first, tried);
      WriteLastKeeps(Dial(first), msg, w.rewrite, tried);
    }
  }

  /** Whatever the network does, a send leaves every connection with whole frames and at most one cut frame. */
  lemma {:induction false} SendKeeps(f: Forwarder, msg: string, w: Weather, tried: set<string>)
    requires Ok(f, tried)
    ensures Ok(Send(f, msg, w).0, tried + {msg})
  {
    OkMore(f, tried, msg);
    if f.open && w.alive {
      DeliverKeeps(f, msg, w, tried + {msg});
    } else if w.dial {
      DialKeeps(f, tried + {msg});
      DeliverKeeps(Dial(f), msg, w, tried + {msg});
    }
  }

  // ---------------------------------------------------------------- runs

  datatype Event = Event(msg: string, weather: Weather)

  function After(run: seq<Event>): (f: Forwarder)
    ensures Usable(f)
  {
    if run == [] then Forwarder([], false)
    else
      var last := run[|run| - 1];
      UsableAfter(After(run[..|run| - 1]), last.msg, last.weather);
      Send(After(run[..|run| - 1]), last.msg, last.weather).0
  }

  lemma {:induction false} UsableAfter(f: Forwarder, msg: string, w: Weather)
    requires Usable(f)
    ensures Usable(Send(f, msg, w).0)
  {
  }

  /** The messages a run tried to send. */
  function Tried(run: seq<Event>): set<string> {
    if run == [] then {} else Tried(run[..|run| - 1]) + {run[|run| - 1].msg}
  }

  lemma {:induction false} RunKeeps(run: seq<Event>)
    ensures Ok(After(run), Tried(run))
  {
    if run != [] {
      var last := run[|run| - 1];
      RunKeeps(run[..|run| - 1]);
      SendKeeps(After(run[..|run| - 1]), last.msg, last.weather, Tried(run[..|run| - 1]));
    }
  }

  /** The messages written whole, connection by connection. */
  function AllSent(conns: seq<Conn>): seq<string> {
    if conns == [] then [] else AllSent(conns[..|conns| - 1]) + conns[|conns| - 1].sent
  }

  /** The messages whose send succeeded, in order. */
  function Succeeded(run: seq<Event>): seq<string> {
    if run == [] then []
    else
      var init, last := run[..|run| - 1], run[|run| - 1];
      Succeeded(init) + if Send(After(init), last.msg, last.weather).1 then [last.msg] else []
  }

  lemma {:induction false} SentOfDial(f: Forwarder)
    ensures AllSent(Dial(f).conns) == AllSent(f.conns)
  {
    assert (f.conns + [Conn("", [], "")])[..|f.conns|] == f.conns;
  }

  lemma {:induction false} SentOfWrite(f: Forwarder, msg: string, w: Write)
    requires f.conns != []
    ensures AllSent(WriteLast(f, msg, w).conns) == AllSent(f.conns) + if w.Works? then [msg] else []
  {
    var last := |f.conns| - 1;
    var c := WriteTo(f.conns[last], msg, w);
    assert f.conns[last := c][..last] == f.conns[..last];
    assert AllSent(f.conns[..last]) + (f.conns[last].sent + [msg]) == AllSent(f.conns) + [msg];
  }

  lemma {:induction false} SentOfDeliver(f: Forwarder, msg: string, w: Weather)
    requires f.conns != []
    ensures var (f', ok) := Deliver(f, msg, w); AllSent(f'.conns) == AllSent(f.conns) + if ok then [msg] else []
  {
    SentOfWrite(f, msg, w.write);
    var first := WriteLast(f, msg, w.write);
    if !w.write.Works? && w.redial {
      SentOfDial(first);
      SentOfWrite(Dial(first), msg, w.rewrite);
    }
  }

  lemma {:induction false} SentOfSend(f: Forwarder, msg: string, w: Weather)
    requires Usable(f)
    ensures var (f', ok) := Send(f, msg, w); AllSent(f'.conns) == AllSent(f.conns) + if ok then [msg] else []
  {
    if f.open && w.alive {
      SentOfDeliver(f, msg, w);
    } else if w.dial {
      SentOfDial(f);
      SentOfDeliver(Dial(f), msg, w);
    }
  }

  predicate Sent(run: seq<Event>, n: nat)
    requires n < |run|
  {
    Send(After(run[..n]), run[n].msg, run[n].weather).1
  }

  lemma {:induction false} AfterStep(run: seq<Event>, n: nat)
    requires n < |run|
    ensures After(run[..n + 1]) == Send(After(run[..n]), run[n].msg, run[n].weather).0
  {
    assert run[..n + 1][..n] == run[..n];
  }

  /** A connection is in use exactly after a send that succeeded. */
  lemma {:induction false} OpenAfter(f: Forwarder, msg: string, w: Weather)
    requires Usable(f)
    ensures Send(f, msg, w).0.open <==> Send(f, msg, w).1
    ensures Send(f, msg, w).1 <==> ((f.open && w.alive) || w.dial) && (w.write.Works? || (w.redial && w.rewrite.Works?))
    ensures |Send(f, msg, w).0.conns| - |f.conns|
            == (if f.open && w.alive then 0 else if w.dial then 1 else 0)
               + (if ((f.open && w.alive) || w.dial) && !w.write.Works? && w.redial then 1 else 0)
  {
  }

  /**
   Over every run a message is sent exactly when the connection of the last success is still alive or
   a dial works, and then the write works or a second one does over a connection dialed afresh. No
   more connections are opened than that takes.
   */
  lemma {:induction false} SendsExactly(run: seq<Event>, n: nat)
    requires n < |run|
    ensures var w := run[n].weather;
            var reused := n > 0 && Sent(run, n - 1) && w.alive;
            && (Sent(run, n) <==> (reused || w.dial) && (w.write.Works? || (w.redial && w.rewrite.Works?)))
            && |After(run[..n + 1]).conns| - |After(run[..n]).conns|
               == (if reused then 0 else if w.dial then 1 else 0)
                  + (if (reused || w.dial) && !w.write.Works? && w.redial then 1 else 0)
  {
    AfterStep(run, n);
    OpenAfter(After(run[..n]), run[n].msg, run[n].weather);
    if n > 0 {
      AfterStep(run, n - 1);
      OpenAfter(After(run[..n - 1]), run[n - 1].msg, run[n - 1].weather);
    } else {
      assert run[..0] == [];
    }
  }

  /**
   Over every run, whatever the network does, the messages whose write succeeded, read
   connection by connection, are the ones whose send succeeded, in order and once each.
   What a collector reads may be more: see ReceivedExactly.
   */
  lemma {:induction false} SuccessMeansWhole(run: seq<Event>)
    ensures AllSent(After(run).conns) == Succeeded(run)
  {
    if run != [] {
      var init, last := run[..|run| - 1], run[|run| - 1];
      SuccessMeansWhole(init);
      SentOfSend(After(init), last.msg, last.weather);
    }
  }

  /** A write that reported failure had already sent its last byte: what it left is a whole frame. */
  ghost predicate EndsWhole(c: Conn, tried: set<string>) { exists msg :: msg in tried && c.cut == Frame(msg) }

  /**
   Every connection's stream is whole frames and then at most a front part of the frame
   of one more message of the run, with nothing after it. Deframing it recovers the
   messages whose write succeeded, in order, and leaves that part over, exactly when the
   part is not itself a frame; when it is one, its message comes out too.
   */
  lemma {:induction false} StreamsDeframe(run: seq<Event>, i: nat)
    requires i < |After(run).conns|
    ensures var c := After(run).conns[i];
            && c.stream == Encode(c.sent) + c.cut && (c.cut == "" || CutOf(c.cut, Tried(run)))
            && (Deframe(c.stream) == (c.sent, c.cut) <==> !EndsWhole(c, Tried(run)))
            && forall msg :: c.cut == Frame(msg) ==> Deframe(c.stream) == (c.sent + [msg], "")
  {
    RunKeeps(run);
    ConnDeframes(After(run).conns[i], Tried(run));
  }

  lemma {:induction false} ConnDeframes(c: Conn, tried: set<string>)
    requires ConnOk(c, tried)
    ensures Deframe(c.stream) == (c.sent, c.cut) <==> !EndsWhole(c, tried)
    ensures forall msg :: c.cut == Frame(msg) ==> Deframe(c.stream) == (c.sent + [msg], "")
  {
    forall msg | c.cut == Frame(msg)
      ensures Deframe(c.stream) == (c.sent + [msg], "")
    {
      WholeLeft(c.sent, msg, c.cut, c.stream);
    }
    if !EndsWhole(c, tried) {
      PartLeft(c, tried);
    }
  }

  lemma {:induction false} PartLeft(c: Conn, tried: set<string>)
    requires ConnOk(c, tried) && !EndsWhole(c, tried)
    ensures Deframe(c.stream) == (c.sent, c.cut)
  {
    if c.cut == "" {
      NothingLeft(c.sent, c.stream);
    } else {
      var msg :| msg in tried && IsPrefix(c.cut, Frame(msg));
      assert |c.cut| == |Frame(msg)| ==> c.cut == Frame(msg);
      CutLeft(c.sent, msg, c.cut, c.stream);
    }
  }

  lemma {:induction false} NothingLeft(sent: seq<string>, stream: string)
    requires stream == Encode(sent) + ""
    ensures Deframe(stream) == (sent, "")
  {
    assert Deframe("") == ([], "");
    DeframeEncoded(sent, "", [], "");
    assert sent + [] == sent;
  }

  lemma {:induction false} CutLeft(sent: seq<string>, msg: string, cut: string, stream: string)
    requires IsPrefix(cut, Frame(msg)) && |cut| < |Frame(msg)| && stream == Encode(sent) + cut
    ensures Deframe(stream) == (sent, cut)
  {
    CutFrameYieldsNothing(msg, |cut|);
    DeframeEncoded(sent, cut, [], cut);
    assert sent + [] == sent;
  }

  lemma {:induction false} WholeLeft(sent: seq<string>, msg: string, cut: string, stream: string)
    requires cut == Frame(msg) && stream == Encode(sent) + cut
    ensures Deframe(stream) == (sent + [msg], "")
  {
    assert Frame(msg) == Frame(msg) + "";
    assert Deframe("") == ([], "");
    DeframeFirst(msg, "", cut, [], "");
    assert [msg] + [] == [msg];
    DeframeEncoded(sent, cut, [msg], "");
  }

  // ---------------------------------------------------------------- what a collector receives

  /** The messages a collector reads, connection by connection. */
  function Received(conns: seq<Conn>): seq<string> {
    if conns == [] then [] else Received(conns[..|conns| - 1]) + Deframe(conns[|conns| - 1].stream).0
  }

  ghost predicate NoneEndsWhole(conns: seq<Conn>, tried: set<string>) {
    forall i :: 0 <= i < |conns| ==> !EndsWhole(conns[i], tried)
  }

  lemma {:induction false} ReceivedOf(conns: seq<Conn>, tried: set<string>)
    requires forall i :: 0 <= i < |conns| ==> ConnOk(conns[i], tried)
    ensures |AllSent(conns)| <= |Received(conns)| && multiset(AllSent(conns)) <= multiset(Received(conns))
    ensures Received(conns) == AllSent(conns) <==> NoneEndsWhole(conns, tried)
  {
    if conns != [] {
      var init, last := conns[..|conns| - 1], conns[|conns| - 1];
      NoneEndsWholeSplits(conns, tried);
      ReceivedOf(init, tried);
      LastReceived(last, tried);
      MoreReceived(AllSent(init), last.sent, Received(init), Deframe(last.stream).0);
    }
  }

  lemma {:induction false} NoneEndsWholeSplits(conns: seq<Conn>, tried: set<string>)
    requires conns != []
    ensures var init, last := conns[..|conns| - 1], conns[|conns| - 1];
            NoneEndsWhole(conns, tried) <==> NoneEndsWhole(init, tried) && !EndsWhole(last, tried)
  {
    var init := conns[..|conns| - 1];
    assert forall i :: 0 <= i < |init| ==> conns[i] == init[i];
  }

  lemma {:induction false} LastReceived(c: Conn, tried: set<string>)
    requires ConnOk(c, tried)
    ensures var got := Deframe(c.stream).0;
            |c.sent| <= |got| && multiset(c.sent) <= multiset(got) && (got == c.sent <==> !EndsWhole(c, tried))
  {
    ConnDeframes(c, tried);
    if EndsWhole(c, tried) {
      var msg :| msg in tried && c.cut == Frame(msg);
      assert Deframe(c.stream) == (c.sent + [msg], "");
    }
  }

  lemma {:induction false} MoreReceived(a: seq<string>, b: seq<string>, a': seq<string>, b': seq<string>)
    requires |a| <= |a'| && |b| <= |b'| && multiset(a) <= multiset(a') && multiset(b) <= multiset(b')
    ensures |a + b| <= |a' + b'| && multiset(a + b) <= multiset(a' + b')
    ensures a' + b' == a + b <==> a' == a && b' == b
  {
    if a' + b' == a + b {
      assert |a'| == |a|;
      assert a' == (a' + b')[..|a|] && a == (a + b)[..|a|];
      assert b' == (a' + b')[|a|..] && b == (a + b)[|a|..];
    }
  }

  /**
   Over every run, whatever the network does, a collector receives every message whose
   send succeeded, and receives exactly those messages, in order and once each, exactly
   when no write that reported failure had sent its whole frame.
   */
  lemma {:induction false} ReceivedExactly(run: seq<Event>)
    ensures multiset(Succeeded(run)) <= multiset(Received(After(run).conns))
    ensures Received(After(run).conns) == Succeeded(run) <==> NoneEndsWhole(After(run).conns, Tried(run))
  {
    RunKeeps(run);
    SuccessMeansWhole(run);
    ReceivedOf(After(run).conns, Tried(run));
  }

  /** One message, dialed, whose first write reports failure after its last byte. */
  predicate LateFailure(run: seq<Event>, msg: string) {
    && |run| == 1 && run[0].msg == msg && run[0].weather.dial
    && run[0].weather.write.Fails? && run[0].weather.write.after >= |Frame(msg)|
  }

  /** The condition is needed: such a message arrives though its send failed, and twice when the retry works. */
  lemma {:induction false} ArrivesUnreported(run: seq<Event>, msg: string)
    requires LateFailure(run, msg)
    ensures !run[0].weather.redial ==> Succeeded(run) == [] && Received(After(run).conns) == [msg]
    ensures run[0].weather.redial && run[0].weather.rewrite.Works? ==>
              Succeeded(run) == [msg] && Received(After(run).conns) == [msg, msg]
  {
    var w := run[0].weather;
    var left, again := Conn(Frame(msg), [], Frame(msg)), Conn(Frame(msg), [msg], "");
    OneEvent(run);
    FrameAlone(msg, left);
    FrameAlone(msg, again);
    if w.redial && w.rewrite.Works? {
      LateRetry(msg, w, left, again);
      TwoReceived(left, again, msg);
    } else if !w.redial {
      LateWrite(msg, w.write, left);
      OneReceived(left, msg);
    }
  }

  lemma {:induction false} OneEvent(run: seq<Event>)
    requires |run| == 1
    ensures var (f, ok) := Send(Forwarder([], false), run[0].msg, run[0].weather);
            After(run) == f && Succeeded(run) == if ok then [run[0].msg] else []
  {
    assert run[..0] == [];
  }

  /** The failed write leaves the whole frame on the connection it closes. */
  lemma {:induction false} LateWrite(msg: string, w: Write, left: Conn)
    requires w.Fails? && w.after >= |Frame(msg)| && left == Conn(Frame(msg), [], Frame(msg))
    ensures WriteLast(Dial(Forwarder([], false)), msg, w) == Forwarder([left], false)
  {
    assert Frame(msg)[..|Frame(msg)|] == Frame(msg) && "" + Frame(msg) == Frame(msg);
    assert Dial(Forwarder([], false)).conns == [Conn("", [], "")];
  }

  lemma {:induction false} LateRetry(msg: string, w: Weather, left: Conn, again: Conn)
    requires w.dial && w.write.Fails? && w.write.after >= |Frame(msg)| && w.redial && w.rewrite.Works?
    requires left == Conn(Frame(msg), [], Frame(msg)) && again == Conn(Frame(msg), [msg], "")
    ensures Send(Forwarder([], false), msg, w) == (Forwarder([left, again], true), true)
  {
    LateWrite(msg, w.write, left);
    assert WriteTo(Conn("", [], ""), msg, w.rewrite) == again by {
      assert "" + Frame(msg) == Frame(msg) && [] + [msg] == [msg];
    }
    assert Dial(Forwarder([left], false)).conns == [left, Conn("", [], "")];
    assert [left, Conn("", [], "")][1 := again] == [left, again];
  }

  lemma {:induction false} FrameAlone(msg: string, c: Conn)
    requires c.stream == Frame(msg)
    ensures Deframe(c.stream).0 == [msg]
  {
    assert Frame(msg) == Frame(msg) + "" && Deframe("") == ([], "");
    DeframeFirst(msg, "", Frame(msg), [], "");
  }

  lemma {:induction false} TwoReceived(c: Conn, d: Conn, msg: string)
    requires Deframe(c.stream).0 == [msg] && Deframe(d.stream).0 == [msg]
    ensures Received([c, d]) == [msg, msg]
  {
    OneReceived(c, msg);
    assert [c, d][..1] == [c];
  }

  lemma {:induction false} OneReceived(c: Conn, msg: string)
    requires Deframe(c.stream).0 == [msg]
    ensures Received([c]) == [msg]
  {
    assert [c][..0] == [];
  }

  // ---------------------------------------------------------------- the code

  class Sender {
    var conns: seq<Conn>
    var open: bool

    ghost function State(): Forwarder
      reads this
    {
      Forwarder(conns, open)
    }

    constructor ()
      ensures State() == Forwarder([], false)
    {
      conns, open := [], false;
    }

    method DialConn(works: bool) returns (ok: bool)
      modifies this
      ensures ok == works
      ensures State() == if works then Dial(old(State())) else old(State())
    {
      if !works {
        return false;
      }
      conns, open := conns + [Conn("", [], "")], true;
      return true;
    }

    /**
     Writes one frame to the connection in use: its stream grows by a front part of the
     frame, by all of it when the write works, and no other connection changes.
     */
    method WriteFrame(msg: string, w: Write) returns (ok: bool)
      requires open && conns != []
      modifies this`conns
      ensures ok == w.Works? && |conns| == |old(conns)|
      ensures forall i :: 0 <= i < |conns| - 1 ==> conns[i] == old(conns)[i]
      ensures var stream, before := conns[|conns| - 1].stream, old(conns)[|conns| - 1].stream;
              && IsPrefix(before, stream) && IsPrefix(stream[|before|..], Frame(msg))
              && (ok ==> stream == before + Frame(msg))
      ensures conns == WriteLast(old(State()), msg, w).conns
    {
      var last := |conns| - 1;
      conns := conns[last := WriteTo(conns[last], msg, w)];
      return w.Works?;
    }

    /** Sends one message: over the connection in use if it is alive, else a fresh one, with one retry. */
    method SendMessage(msg: string, w: Weather) returns (ok: bool)
      requires Usable(State())
      modifies this
      ensures Usable(State()) && (State(), ok) == Send(old(State()), msg, w)
    {
      if open && !w.alive {
        open := false;
      }
      if !open {
        var dialed := DialConn(w.dial);
        if !dialed {
          return false;
        }
      }
      var written := WriteFrame(msg, w.write);
      if !written {
        open := false;
        var dialed := DialConn(w.redial);
        if !dialed {
          return false;
        }
        written := WriteFrame(msg, w.rewrite);
        if !written {
          open := false;
          return false;
        }
      }
      return true;
    }
  }
}
