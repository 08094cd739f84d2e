/** What every run of the gateway and the workers guarantees about one connection. */
module MigrationTheorems {
  import opened Bytes
  import opened Nonce
  import opened Records
  import opened Owner
  import opened Session
  import opened Stream
  import opened Migration
  import opened MigrationRuns

  lemma Reached(sc: Script, events: seq<Event>)
    requires Good(sc)
    ensures Inv(sc, Run(sc, Init(sc), events))
  {
    hide Inv;
    InitInv(sc);
    RunInv(sc, Init(sc), events);
  }

  /**
   In every run, the completed responses answer a prefix of the client's
   requests, in order and each exactly once: response `j` was written by the
   worker named in request `j`'s path, is the text that worker prints for that
   request's header, and is numbered by its position in the current run of
   requests to one owner.
   */
  lemma ResponsesAnswerRequests(sc: Script, events: seq<Event>)
    requires Good(sc)
    ensures var sys := Run(sc, Init(sc), events);
            && |sys.served| <= |sc.requests|
            && forall j :: 0 <= j < |sys.served| ==>
                 var named := ParseOwner(Text(sc, j), 128);
                 && named.Some? && sys.served[j].name == CStr(named.value)
                 && sys.served[j].reqNo == RunPosition(sc, j)
                 && sys.served[j].text == sc.http.respond(sys.served[j].name, sys.served[j].reqNo, HeaderOf(sc, j))
  {
    hide Run, InStep, SessInv, TransitInv, GatewayInv, Clean, Numbered, ClientOk, RunPosition, HeaderOf;
    Reached(sc, events);
    var sys := Run(sc, Init(sc), events);
    forall j | 0 <= j < |sys.served|
      ensures var named := ParseOwner(Text(sc, j), 128);
              && named.Some? && sys.served[j].name == CStr(named.value)
              && sys.served[j].reqNo == RunPosition(sc, j)
              && sys.served[j].text == sc.http.respond(sys.served[j].name, sys.served[j].reqNo, HeaderOf(sc, j))
    {
      assert sys.served[j] == Answer(sc, j);
    }
  }

  /** The bytes on the connection are those responses and nothing else, except possibly the beginning of the next one. */
  lemma BytesAreResponses(sc: Script, events: seq<Event>)
    requires Good(sc)
    ensures var sys := Run(sc, Init(sc), events);
            || OutText(sys.out) == ServedText(sys.served)
            || (&& |sys.served| < |sc.requests| && OwnerOf(sc, |sys.served|).Some?
                && ServedText(sys.served) <= OutText(sys.out)
                && OutText(sys.out)[|ServedText(sys.served)|..] <= Answer(sc, |sys.served|).text)
  {
    hide Run, InStep, SessInv, TransitInv, GatewayInv, Numbered, ClientOk, Answers, Answer, OwnerOf, OutText, ServedText;
    Reached(sc, events);
    var sys := Run(sc, Init(sc), events);
    if !Wrote(sys.out, sys.served, []) {
      var next := Answer(sc, |sys.served|).text;
      var n: nat :| n <= |next| && Wrote(sys.out, sys.served, next[..n]);
      assert OutText(sys.out)[|ServedText(sys.served)|..] == next[..n];
    }
  }

  /**
   Whenever a session waits in the peek state, the socket is at a record
   boundary, no decrypted text is pending, and the counter in its serial is the
   number of client records consumed by all workers so far: exactly those of
   the requests answered.
   */
  lemma PeekStateIsAligned(sc: Script, events: seq<Event>)
    requires Good(sc)
    ensures var sys := Run(sc, Init(sc), events);
            sys.place.At? && sys.place.s.phase == PeekOwner ==>
              var s := sys.place.s;
              && |sys.served| <= |sc.requests|
              && s.tls.pending == [] && s.tls.inbuf == []
              && s.serial.readSeq == s.tls.readSeq == RecordCount(sc, |sys.served|)
              && sys.rx + sys.fut == Wire(sc.ch, s.serial.readSeq, Outstanding(sc, |sys.served|, sys.begun))
  {
    hide Run, Clean, Numbered, Answers, WasMine, Wrote, Wire, Bounded;
    Reached(sc, events);
    var sys := Run(sc, Init(sc), events);
    if sys.place.At? && sys.place.s.phase == PeekOwner {
      var s := sys.place.s;
      assert s.tls.inbuf + sys.rx + sys.fut == sys.rx + sys.fut;
    }
  }

  /**
   Across any chain of migrations the records written on the connection are
   numbered consecutively, so no two of them share a nonce under the server's
   IV until the 64-bit counter would wrap.
   */
  lemma ServerNoncesDistinct(sc: Script, events: seq<Event>, serverIv: seq<byte>, i: nat, j: nat)
    requires Good(sc) && |serverIv| == IV_SIZE
    requires i < j < |Run(sc, Init(sc), events).out|
    requires sc.firstWrite + |Run(sc, Init(sc), events).out| <= TWO64
    ensures var out := Run(sc, Init(sc), events).out;
            && out[i].number == sc.firstWrite + i && out[j].number == sc.firstWrite + j
            && NonceOf(serverIv, out[i].number) != NonceOf(serverIv, out[j].number)
  {
    hide Run, InStep, SessInv, TransitInv, GatewayInv, Clean, Answers, ClientOk, NonceOf;
    Reached(sc, events);
    NonceInjective(serverIv, sc.firstWrite + i, sc.firstWrite + j);
  }

  /** The hand-backs so far are the owner changes among the answered requests, or those and one more. */
  ghost predicate RelaysOk(sc: Script, k: nat, relays: nat) {
    k <= |sc.requests| && (relays == Changes(sc, k) || (k < |sc.requests| && relays == Changes(sc, k + 1)))
  }

  lemma RelaysFromInv(sc: Script, sys: Sys)
    requires Inv(sc, sys) && !sys.place.Gone?
    ensures RelaysOk(sc, |sys.served|, sys.relays)
  {
    hide InStep, Changes, RunPosition, OwnerOf, Bounded, Wrote, Text, HeaderEnd;
    if sys.place.AtGateway? {
      assert sys.relays == Changes(sc, 0) by { NoChanges(sc); }
    }
  }

  lemma NoChanges(sc: Script)
    ensures Changes(sc, 0) == 0
  {
  }

  /** An event that ends the connection completes no response and counts no hand-back. */
  lemma EndingKeepsLogs(sc: Script, sys: Sys, e: Event)
    requires Good(sc) && Next(sc, sys, e).place.Gone?
    ensures Next(sc, sys, e).relays == sys.relays && Next(sc, sys, e).served == sys.served
  {
    hide OwnerByPeek, RecordReady, TlsRead, HeaderEnd, EnsureCapacity, Good, Wire;
  }

  lemma {:induction false} RelaysAlways(sc: Script, sys: Sys, events: seq<Event>)
    requires Good(sc) && Inv(sc, sys) && RelaysOk(sc, |sys.served|, sys.relays)
    ensures var end := Run(sc, sys, events); RelaysOk(sc, |end.served|, end.relays)
    decreases |events|
  {
    hide Next, Inv, RelaysOk, Good;
    if events != [] {
      var sys' := Next(sc, sys, events[0]);
      NextInv(sc, sys, events[0]);
      if sys'.place.Gone? {
        EndingKeepsLogs(sc, sys, events[0]);
      } else {
        RelaysFromInv(sc, sys');
      }
      RelaysAlways(sc, sys', events[1..]);
    }
  }

  /**
   The hand-backs on a connection equal the adjacent owner changes among its
   requests: those answered, plus the one for the request under way if that one
   changed owner. So each request is handed back at most once before it is read.
   */
  lemma RelaysAreOwnerChanges(sc: Script, events: seq<Event>)
    requires Good(sc)
    ensures var sys := Run(sc, Init(sc), events);
            && RelaysOk(sc, |sys.served|, sys.relays)
            && (|sys.served| == |sc.requests| ==> sys.relays == Changes(sc, |sc.requests|))
  {
    hide Run, Inv, Changes;
    InitInv(sc);
    NoChanges(sc);
    RelaysAlways(sc, Init(sc), events);
  }

  /** In every reachable state of a session, its buffers and cursors are within bounds. */
  lemma SessionsAreBounded(sc: Script, events: seq<Event>)
    requires Good(sc)
    ensures var sys := Run(sc, Init(sc), events);
            sys.place.At? ==>
              var s := sys.place.s;
              && |s.buf| <= 1048576 + 8191 && |s.buf| < s.cap <= 2097152
              && s.bodyIn <= s.bodyTarget <= 1048576 && s.respOff <= |s.resp| < 768
  {
    hide Run, InStep, Clean, Numbered, Answers, ClientOk;
    Reached(sc, events);
  }
}
