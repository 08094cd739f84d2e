/** A connection that meets every assumption of the run theorems, with one change of owner: the theorems are not empty. */
module Example {
  import opened Bytes
  import opened Nonce
  import opened Records
  import opened Owner
  import opened Session
  import opened Migration
  import opened MigrationTheorems
  import opened Progress
  import opened Reference
  import opened Blocking
  import opened Wakeups

  /** A request to the function with the one-letter name `n`. */
  function Ask(n: byte): seq<byte> {
    [71, 32, 47, 102, 117, 110, 99, 116, 105, 111, 110, 47, n, 32, 13, 10, 13, 10]
  }

  const LINK := Channel(Library(NullCipher, NullCipher), AES_256_GCM, seq(KEY_SIZE, _ => 0), seq(IV_SIZE, _ => 0))
  const REPLY: seq<byte> := [79, 75]
  const PAGES := Http((h: seq<byte>) => 0, (h: seq<byte>) => false, (h: seq<byte>) => false, (w, r, h) => REPLY)

  /** Two requests, to the functions "a" and "b". */
  const TALK := Script(LINK, PAGES, [[Ask(97)], [Ask(98)]], 0, PEEK_MAX)

  lemma AskMarks(n: byte)
    requires 97 <= n <= 122
    ensures |Ask(n)| == 18 && Ask(n)[14..18] == CRLFCRLF
    ensures forall j :: 0 <= j < 18 && Ask(n)[j] == CR ==> j >= 14
    ensures forall j :: 0 <= j < 18 && Ask(n)[j] == LF ==> j == 15 || j == 17
  {
  }

  lemma AskShape(n: byte)
    requires 97 <= n <= 122
    ensures HasHeader(Ask(n), 18) && |Ask(n)| == 18 && HeaderEnd(Ask(n)) == Some(18)
  {
    hide Ask, FindSub;
    var r := Ask(n);
    AskMarks(n);
    assert r[..18] == r;
    FindSubFirst(r, CRLFCRLF);
    FindSubFirst(r, LFLF);
    assert HasAt(r, 14, CRLFCRLF);
    assert forall j :: HasAt(r, j, CRLFCRLF) ==> r[j] == r[j..j + 4][0] == CR;
    forall j | 0 <= j && j + 2 <= 18
      ensures !HasAt(r, j, LFLF)
    {
      assert r[j..j + 2][0] == r[j] && r[j..j + 2][1] == r[j + 1];
    }
    assert FindSub(r, LFLF) == None;
    HeaderEndOfPrefix(r, 18, 18);
  }

  lemma AskOwner(n: byte)
    requires 97 <= n <= 122
    ensures ParseOwner(Ask(n), TARGET_LEN) == Some([n]) && CStr([n]) == [n]
  {
    var r := Ask(n);
    FindUnique(r, LF, 15);
    assert Line(r) == [71] + [SP] + (PREFIX + [n] + []) + [SP] + [CR];
    ParseOwnerComplete(r, [71], [n], [], [CR], TARGET_LEN);
    FindUnique([n], NUL, 1);
  }

  /** A request that is one record with such a text. */
  lemma One(sc: Script, j: nat, n: byte)
    requires 97 <= n <= 122 && j < |sc.requests| && sc.requests[j] == [Ask(n)]
    ensures Text(sc, j) == Ask(n) && HeaderSize(sc, j) == 18 && HeaderOf(sc, j) == Ask(n)
    ensures OwnerOf(sc, j) == Some([n]) == PeekedOwner(sc, j)
  {
    hide Ask, ParseOwner, HeaderEnd, CStr;
    var r := Ask(n);
    FlattenSnoc([], r);
    assert [] + [r] == [r];
    AskShape(n);
    AskOwner(n);
    assert r[..18] == r;
    assert Take(r, PEEK_MAX) == r;
  }

  lemma TalkIsServable()
    ensures Good(TALK) && Sized(TALK) && Servable(TALK) && OwnerOf(TALK, 0) != OwnerOf(TALK, 1)
  {
    hide Ask, ParseOwner, HeaderEnd, CStr, Sound, HasHeader, FindSub, OwnerOf, HeaderOf, Text;
    NullCipherSound();
    assert |TALK.requests| == 2;
    forall j | 0 <= j < 2
      ensures TALK.requests[j] != [] && Framed(TALK, j) && HeaderSize(TALK, j) <= MAX_REQ && Shown(TALK, j) && Answerable(TALK, j)
    {
      assert TALK.requests[j] == [Ask(97 + j)];
      One(TALK, j, 97 + j);
      AskShape(97 + j);
      AskOwner(97 + j);
      assert Take(Ask(97 + j), PEEK_MAX) == Ask(97 + j);
    }
    One(TALK, 0, 97);
    One(TALK, 1, 98);
  }

  /** Both requests of the example can be answered, and then there was exactly one hand-back. */
  lemma TalkIsServed() returns (events: seq<Event>)
    ensures Good(TALK)
    ensures |Run(TALK, Init(TALK), events).served| == 2 && Run(TALK, Init(TALK), events).relays == 1
  {
    TalkIsServable();
    hide Good, Servable, Run, OwnerOf, Sized;
    events := EveryRequestCanBeServed(TALK);
    RelaysAreOwnerChanges(TALK, events);
    assert Changes(TALK, 2) == Changes(TALK, 1) + 1;
  }

  /** And there is a fair schedule without faults in which the second is not answered, because the client closes its side first. */
  lemma TalkCanBeCut() returns (sched: Schedule)
    ensures Good(TALK) && Fair(sched)
    ensures forall n: nat :: |Woken(TALK, Start(TALK), sched, 0, n).sys.served| != 2
  {
    TalkIsServable();
    hide Good, Servable, OwnerOf, Sized, Fair, Woken;
    sched := HastyClientLoses(TALK);
    assert |TALK.requests| == 2;
  }

  /** Two requests to one function. */
  const TWICE := Script(LINK, PAGES, [[Ask(97)], [Ask(97)]], 0, PEEK_MAX)

  /**
   A blocking worker that wakes up at the first byte of the second request
   closes the connection, where the loop answers both.
   */
  lemma EarlyWakeUpLoses()
    ensures NonEmpty(TWICE) && WithinBoth(TWICE)
    ensures BlockServe(TWICE, [97], 0, 1, j => 1) == Outcome([Served([97], 1, REPLY)], Closed)
    ensures Serve(TWICE, [97], 0, 1) == Outcome([Served([97], 1, REPLY), Served([97], 2, REPLY)], Closed)
  {
    hide Ask, ParseOwner, HeaderEnd, CStr, HeaderOf, Text, PeekedOwner, OwnerOf;
    One(TWICE, 0, 97);
    One(TWICE, 1, 97);
    AskShape(97);
    assert |TWICE.requests| == 2;
    var wake: Wake := j => 1;
    assert BlockAwait(TWICE, [97], 1, 2, wake) == Outcome([], Closed);
    assert Serve(TWICE, [97], 1, 2) == Outcome([Served([97], 2, REPLY)], Closed) by {
      assert Await(TWICE, [97], 2, 3) == Outcome([], Closed);
    }
    assert Await(TWICE, [97], 1, 2) == Serve(TWICE, [97], 1, 2);
  }
}
