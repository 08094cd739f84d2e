/**
 Hot Potato: a gateway that consumes the first request and carries it to a
 worker, and two workers that keep the connection while the route stays theirs
 and carry it back when it changes.
 */
module HotPotato {
  import opened Bytes
  import Session

  const MAX_REQUEST := 8192
  const EQUALS: byte := 61
  const AMP: byte := 38
  const LETTER_A: byte := 97
  const LETTER_B: byte := 98

  /** "/sum" and "/product". */
  const SUM_PATH: seq<byte> := [47, 115, 117, 109]
  const PRODUCT_PATH: seq<byte> := [47, 112, 114, 111, 100, 117, 99, 116]

  datatype Route = Sum | Product
  datatype Request = Request(route: Route, a: real, b: real)

  /** `atof` and the response text, as parameters; operands are real numbers. */
  datatype Lang = Lang(atof: seq<byte> -> real, reply: (Route, real) -> seq<byte>)

  // ---------------------------------------------------------------- parsing

  function UpTo(s: seq<byte>, c: byte): seq<byte> {
    s[..Find(s, c)]
  }

  /** The first line, at most 255 bytes of it. */
  function RequestLine(buf: seq<byte>): seq<byte> {
    UpTo(UpTo(Take(CStr(buf), 255), LF), CR)
  }

  function Target(line: seq<byte>): Option<seq<byte>> {
    var sp := Find(line, SP);
    if sp == |line| then None else Some(UpTo(line[sp + 1..], SP))
  }

  function PathOf(target: seq<byte>): seq<byte> {
    Take(UpTo(target, QUERY), 63)
  }

  function QueryOf(target: seq<byte>): seq<byte> {
    var q := Find(target, QUERY);
    if q == |target| then [] else Take(target[q + 1..], 127)
  }

  function RouteOf(path: seq<byte>): Option<Route> {
    if path == SUM_PATH then Some(Sum) else if path == PRODUCT_PATH then Some(Product) else None
  }

  /** The number after the first "a=" or "b=" of the query, or zero. */
  function Operand(lang: Lang, query: seq<byte>, key: byte): real {
    var p := Session.FindSub(query, [key, EQUALS]);
    if p.None? || p.value + 2 > |query| then 0.0 else lang.atof(query[p.value + 2..])
  }

  /** `parse_request` and both copies of `parse_request_local`. */
  function Parse(lang: Lang, buf: seq<byte>): Option<Request> {
    var target := Target(RequestLine(buf));
    if target.None? || RouteOf(PathOf(target.value)).None? then None
    else
      var query := QueryOf(target.value);
      Some(Request(RouteOf(PathOf(target.value)).value, Operand(lang, query, LETTER_A), Operand(lang, query, LETTER_B)))
  }

  predicate Plain(s: seq<byte>) {
    forall c :: c in s ==> c != NUL && c != LF && c != CR && c != SP
  }

  lemma Prefixed(s: seq<byte>, head: seq<byte>, c: byte)
    requires head <= s && c !in head
    ensures Find(s, c) >= |head| && head <= UpTo(s, c)
    ensures |head| < |s| && s[|head|] == c ==> UpTo(s, c) == head
  {
    assert forall i :: 0 <= i < |head| ==> s[i] == head[i];
    if |head| < |s| && s[|head|] == c {
      FindUnique(s, c, |head|);
    }
  }

  /** A request in a cleared buffer: what is parsed does not depend on the zeros behind it. */
  lemma Padded(lang: Lang, buf: seq<byte>, n: nat)
    requires n <= |buf| && forall i :: n <= i < |buf| ==> buf[i] == NUL
    ensures Parse(lang, buf) == Parse(lang, buf[..n])
  {
    hide Parse;
    var k := Find(buf[..n], NUL);
    FindUnique(buf, NUL, k);
    assert buf[..n][..k] == buf[..k];
    SameLine(lang, buf, buf[..n]);
  }

  lemma SameLine(lang: Lang, a: seq<byte>, b: seq<byte>)
    requires CStr(a) == CStr(b)
    ensures Parse(lang, a) == Parse(lang, b)
  {
    hide Target, RouteOf, PathOf, QueryOf, Operand, UpTo;
  }

  lemma TargetOf(line: seq<byte>, verb: seq<byte>, target: seq<byte>)
    requires verb + [SP] + target + [SP] <= line && SP !in verb && SP !in target
    ensures Target(line) == Some(target)
  {
    var head := verb + [SP] + target + [SP];
    assert line[..|verb|] == head[..|verb|] == verb;
    assert line[|verb|] == head[|verb|] == SP;
    Prefixed(line, verb, SP);
    var after := line[|verb| + 1..];
    assert after[..|target|] == head[|verb| + 1..][..|target|] == target;
    assert after[|target|] == head[|verb| + 1..][|target|] == SP;
    Prefixed(after, target, SP);
  }

  /** Every request line of the form the service is for gives its route and its operands. */
  lemma ParseComplete(lang: Lang, verb: seq<byte>, path: seq<byte>, query: seq<byte>, rest: seq<byte>)
    requires Plain(verb) && Plain(query) && RouteOf(path).Some?
    requires |verb| + |path| + |query| + 3 <= 255
    ensures Parse(lang, verb + [SP] + path + [QUERY] + query + [SP] + rest)
         == Some(Request(RouteOf(path).value, Operand(lang, Take(query, 127), LETTER_A), Operand(lang, Take(query, 127), LETTER_B)))
  {
    var target := path + [QUERY] + query;
    assert Plain(path) && QUERY !in path;
    var head := verb + [SP] + target + [SP];
    var buf := verb + [SP] + path + [QUERY] + query + [SP] + rest;
    assert buf == head + rest;
    LineKeeps(buf, head);
    TargetOf(RequestLine(buf), verb, target);
    Prefixed(target, path, QUERY);
    assert target[|path| + 1..] == query;
  }

  /** Nothing behind the first 255 bytes matters. */
  lemma FirstBytesDecide(lang: Lang, buf: seq<byte>)
    requires |buf| > 255
    ensures Parse(lang, buf) == Parse(lang, buf[..255])
  {
    hide Find, Parse;
    var n := Find(buf, NUL);
    FindUnique(buf[..255], NUL, Min(n, 255));
    assert buf[..255][..Min(n, 255)] == buf[..Min(n, 255)];
    assert n > 255 ==> buf[..n][..255] == buf[..255];
    SameBeginning(lang, buf, buf[..255]);
  }

  lemma SameBeginning(lang: Lang, a: seq<byte>, b: seq<byte>)
    requires Take(CStr(a), 255) == Take(CStr(b), 255)
    ensures Parse(lang, a) == Parse(lang, b)
  {
    hide Target, RouteOf, PathOf, QueryOf, Operand, UpTo, CStr;
  }

  /** The routes by their paths. */
  lemma Routes(path: seq<byte>)
    ensures RouteOf(path) == Some(Sum) <==> path == [47, 115, 117, 109]
    ensures RouteOf(path) == Some(Product) <==> path == [47, 112, 114, 111, 100, 117, 99, 116]
  {
  }

  /** A beginning without NUL or line ends is kept by the line. */
  lemma LineKeeps(buf: seq<byte>, head: seq<byte>)
    requires head <= buf && |head| <= 255
    requires NUL !in head && LF !in head && CR !in head
    ensures head <= RequestLine(buf)
  {
    Prefixed(buf, head, NUL);
    var s := Take(CStr(buf), 255);
    Prefixed(s, head, LF);
    Prefixed(UpTo(s, LF), head, CR);
  }

  /** The operands of "a=X&b=Y". */
  lemma Operands(lang: Lang, x: seq<byte>, y: seq<byte>)
    requires 98 !in x
    ensures var query := [97, 61] + x + [38, 98, 61] + y;
            && Operand(lang, query, LETTER_A) == lang.atof(x + [38, 98, 61] + y)
            && Operand(lang, query, LETTER_B) == lang.atof(y)
  {
    var query := [LETTER_A, EQUALS] + x + [AMP, LETTER_B, EQUALS] + y;
    var ka, kb := [LETTER_A, EQUALS], [LETTER_B, EQUALS];
    Session.FindSubFirst(query, ka);
    Session.FindSubFirst(query, kb);
    assert query[0..2] == ka;
    assert HasAt(query, 0, ka);
    assert query[2..] == x + [AMP, LETTER_B, EQUALS] + y;
    var at := |x| + 3;
    assert query[at..at + 2] == kb;
    assert HasAt(query, at, kb);
    assert query[at + 2..] == y;
    var p := Session.FindSub(query, kb).value;
    assert query[p] == LETTER_B by { assert query[p..p + 2][0] == LETTER_B; }
    assert forall i :: 2 <= i < 2 + |x| ==> query[i] == x[i - 2];
  }

  /** An operand that the query does not have is zero. */
  lemma MissingOperand(lang: Lang, query: seq<byte>, key: byte)
    requires forall i :: !HasAt(query, i, [key, 61])
    ensures Operand(lang, query, key) == 0.0
  {
    Session.FindSubFirst(query, [key, EQUALS]);
  }

  /** A request without a query asks with two zeros. */
  lemma NoQuery(lang: Lang, verb: seq<byte>, path: seq<byte>, rest: seq<byte>)
    requires Plain(verb) && RouteOf(path).Some? && |verb| + |path| + 2 <= 255
    ensures Parse(lang, verb + [32] + path + [32] + rest) == Some(Request(RouteOf(path).value, 0.0, 0.0))
  {
    assert Plain(path) && QUERY !in path;
    var head := verb + [SP] + path + [SP];
    var buf := verb + [32] + path + [32] + rest;
    assert buf == head + rest;
    LineKeeps(buf, head);
    TargetOf(RequestLine(buf), verb, path);
    hide RequestLine, Target;
    BarePath(lang, path);
  }

  lemma BarePath(lang: Lang, path: seq<byte>)
    requires RouteOf(path).Some?
    ensures PathOf(path) == path && QueryOf(path) == []
    ensures Operand(lang, [], LETTER_A) == Operand(lang, [], LETTER_B) == 0.0
  {
    assert QUERY !in path;
    FindUnique(path, QUERY, |path|);
    assert path[..|path|] == path;
    MissingOperand(lang, [], LETTER_A);
    MissingOperand(lang, [], LETTER_B);
  }

  // ---------------------------------------------------------------- one sequential server

  function Result(route: Route, a: real, b: real): real {
    match route
    case Sum => a + b
    case Product => a * b
  }

  function Compute(lang: Lang, r: Request): seq<byte> {
    lang.reply(r.route, Result(r.route, r.a, r.b))
  }

  /** A single server that parses and computes each request it reads, and stops at one it cannot parse. */
  function Sequential(lang: Lang, texts: seq<seq<byte>>): seq<seq<byte>> {
    if texts == [] || Parse(lang, texts[0]).None? then []
    else [Compute(lang, Parse(lang, texts[0]).value)] + Sequential(lang, texts[1..])
  }

  /** Route changes among the requests that server answers, starting from route `now`. */
  function Changes(lang: Lang, now: Route, texts: seq<seq<byte>>): nat
    decreases |texts|
  {
    if texts == [] || Parse(lang, texts[0]).None? then 0
    else
      var r := Parse(lang, texts[0]).value;
      (if r.route != now then 1 else 0) + Changes(lang, r.route, texts[1..])
  }

  function FirstRequest(lang: Lang, texts: seq<seq<byte>>): Option<Request> {
    if texts == [] then None else Parse(lang, texts[0])
  }

  function Transfers(lang: Lang, texts: seq<seq<byte>>): nat {
    var first := FirstRequest(lang, texts);
    if first.None? then 0 else 1 + 2 * Changes(lang, first.value.route, texts[1..])
  }

  // ---------------------------------------------------------------- what the replies are

  /** "VERB /sum?a=X&b=Y ..." or the same for "/product". */
  function Question(verb: seq<byte>, route: Route, x: seq<byte>, y: seq<byte>, rest: seq<byte>): seq<byte> {
    verb + [32] + (if route.Sum? then [47, 115, 117, 109] else [47, 112, 114, 111, 100, 117, 99, 116])
    + [63] + ([97, 61] + x + [38, 98, 61] + y) + [32] + rest
  }

  /** Words without blanks, line ends or terminators, short enough for the parser's copies of line and query. */
  predicate Askable(verb: seq<byte>, x: seq<byte>, y: seq<byte>) {
    && (forall c :: c in verb + x + y ==> c != 0 && c != 10 && c != 13 && c != 32)
    && 98 !in x && |verb| <= 112 && |x| + |y| <= 122
  }

  lemma QuestionParsed(lang: Lang, verb: seq<byte>, route: Route, x: seq<byte>, y: seq<byte>, rest: seq<byte>)
    requires Askable(verb, x, y)
    ensures Parse(lang, Question(verb, route, x, y, rest))
         == Some(Request(route, lang.atof(x + [38, 98, 61] + y), lang.atof(y)))
  {
    hide Parse, Operand;
    var path: seq<byte> := if route.Sum? then [47, 115, 117, 109] else [47, 112, 114, 111, 100, 117, 99, 116];
    var query := [97, 61] + x + [38, 98, 61] + y;
    Routes(path);
    assert Plain(verb) && Plain(query) by { Words(verb, x, y); }
    ParseComplete(lang, verb, path, query, rest);
    Operands(lang, x, y);
    assert Take(query, 127) == query;
  }

  lemma Words(verb: seq<byte>, x: seq<byte>, y: seq<byte>)
    requires Askable(verb, x, y)
    ensures Plain(verb) && Plain([97, 61] + x + [38, 98, 61] + y)
  {
    var s := verb + x + y;
    assert forall c :: c in verb || c in x || c in y ==> c in s;
  }

  /**
   The sequential server adds for "/sum" and multiplies for "/product": its
   reply to request `i`, if it gets that far, is the text for the number computed from
   the operands in the request line.
   */
  lemma {:induction false} ReplyIs(lang: Lang, texts: seq<seq<byte>>, i: nat, verb: seq<byte>, route: Route, x: seq<byte>, y: seq<byte>, rest: seq<byte>, z: real)
    requires i < |Sequential(lang, texts)| <= |texts| && Askable(verb, x, y) && texts[i] == Question(verb, route, x, y, rest)
    requires route == Sum ==> z == lang.atof(x + [38, 98, 61] + y) + lang.atof(y)
    requires route == Product ==> z == lang.atof(x + [38, 98, 61] + y) * lang.atof(y)
    ensures Sequential(lang, texts)[i] == lang.reply(route, z)
  {
    hide Parse, Question, Compute;
    if i == 0 {
      QuestionParsed(lang, verb, route, x, y, rest);
      ComputeIs(lang, Request(route, lang.atof(x + [38, 98, 61] + y), lang.atof(y)), z);
    } else {
      ReplyIs(lang, texts[1..], i - 1, verb, route, x, y, rest, z);
    }
  }

  lemma ComputeIs(lang: Lang, r: Request, z: real)
    requires r.route == Sum ==> z == r.a + r.b
    requires r.route == Product ==> z == r.a * r.b
    ensures Compute(lang, r) == lang.reply(r.route, z)
  {
    assert Result(r.route, r.a, r.b) == z;
  }

  /** Every reply to a question of that form is the sum or the product it asks for. */
  ghost predicate Right(lang: Lang, texts: seq<seq<byte>>, replies: seq<seq<byte>>) {
    && |replies| <= |texts|
    && (forall i, verb, x, y, rest, z ::
          (&& 0 <= i < |replies| && Askable(verb, x, y) && texts[i] == Question(verb, Sum, x, y, rest)
           && z == lang.atof(x + [38, 98, 61] + y) + lang.atof(y)) ==> replies[i] == lang.reply(Sum, z))
    && (forall i, verb, x, y, rest, z ::
          (&& 0 <= i < |replies| && Askable(verb, x, y) && texts[i] == Question(verb, Product, x, y, rest)
           && z == lang.atof(x + [38, 98, 61] + y) * lang.atof(y)) ==> replies[i] == lang.reply(Product, z))
  }

  lemma SequentialIsRight(lang: Lang, texts: seq<seq<byte>>, replies: seq<seq<byte>>)
    requires replies <= Sequential(lang, texts)
    ensures Right(lang, texts, replies)
  {
    hide Sequential, Question, Askable;
    SequentialLength(lang, texts);
    assert forall i :: 0 <= i < |replies| ==> replies[i] == Sequential(lang, texts)[i];
    forall i, verb, x, y, rest, z | 0 <= i < |replies| && Askable(verb, x, y) && texts[i] == Question(verb, Sum, x, y, rest)
      && z == lang.atof(x + [38, 98, 61] + y) + lang.atof(y)
      ensures replies[i] == lang.reply(Sum, z)
    {
      ReplyIs(lang, texts, i, verb, Sum, x, y, rest, z);
    }
    forall i, verb, x, y, rest, z | 0 <= i < |replies| && Askable(verb, x, y) && texts[i] == Question(verb, Product, x, y, rest)
      && z == lang.atof(x + [38, 98, 61] + y) * lang.atof(y)
      ensures replies[i] == lang.reply(Product, z)
    {
      ReplyIs(lang, texts, i, verb, Product, x, y, rest, z);
    }
  }

  lemma AllAnswered(lang: Lang, texts: seq<seq<byte>>)
    ensures Parsable(lang, texts) ==> |Sequential(lang, texts)| == |texts|
  {
    hide Parse, Compute;
    if Parsable(lang, texts) && texts != [] {
      SequentialAnswersEach(lang, texts);
    }
  }

  lemma SequentialLength(lang: Lang, texts: seq<seq<byte>>)
    ensures |Sequential(lang, texts)| <= |texts|
  {
    hide Parse, Compute;
  }

  // ---------------------------------------------------------------- the system's account

  /**
   What becomes of an attempt to send the descriptor: `sendmsg` fails; or it
   succeeds and the other process's `recvmsg` fails or brings no descriptor; or
   the descriptor arrives.
   */
  datatype Fate = Unsent | Dropped | Delivered

  /** The fate of the `i`-th attempt. */
  type Sends = nat -> Fate

  /** Replies written, descriptors sent, and copies of the descriptor opened less copies closed. */
  datatype Account = Account(replies: seq<seq<byte>>, transfers: int, copies: int)

  function Plus(a: Account, b: Account): Account {
    Account(a.replies + b.replies, a.transfers + b.transfers, a.copies + b.copies)
  }

  /** A request closes the connection when it cannot be parsed, or when there is none. */
  const CLOSE := Account([], 0, -1)

  /** A send that does not arrive ends the connection; a copy is closed when the send fails, or by a process that `always` closes. */
  function Stranded(fate: Fate, always: bool): Account {
    Account([], if fate.Unsent? then 0 else 1, if fate.Unsent? || always then -1 else 0)
  }

  /**
   What becomes of the connection from the moment its next request is read:
   by the gateway (`now` is `None`) or by the worker for route `now`. The
   gateway's own copy stays open after the first send, and so does that of a
   worker that hands back.
   */
  function Play(lang: Lang, now: Option<Route>, texts: seq<seq<byte>>, sends: Sends, i: nat): Account
    decreases |texts|, 1
  {
    if FirstRequest(lang, texts).None? then CLOSE
    else
      var r := FirstRequest(lang, texts).value;
      if now.None? then
        if sends(i).Delivered? then Plus(Account([Compute(lang, r)], 1, 1), Play(lang, Some(r.route), texts[1..], sends, i + 1))
        else Stranded(sends(i), false)
      else if now.value == r.route then Plus(Account([Compute(lang, r)], 0, 0), Play(lang, now, texts[1..], sends, i))
      else if sends(i).Delivered? then Plus(Account([], 1, 1), Forward(lang, r, texts[1..], sends, i + 1))
      else Stranded(sends(i), false)
  }

  /** What becomes of it when the gateway has been handed back request `r`: it sends it on and closes its copy either way. */
  function Forward(lang: Lang, r: Request, texts: seq<seq<byte>>, sends: Sends, i: nat): Account
    decreases |texts|, 2
  {
    if sends(i).Delivered? then Plus(Account([Compute(lang, r)], 1, 0), Play(lang, Some(r.route), texts, sends, i + 1))
    else Stranded(sends(i), true)
  }

  /** What becomes of it when request `r` is with its worker. */
  function Owed(lang: Lang, r: Request, texts: seq<seq<byte>>, sends: Sends, i: nat): Account {
    Plus(Account([Compute(lang, r)], 0, 0), Play(lang, Some(r.route), texts, sends, i))
  }

  /** The sends needed to answer every request. */
  function Needed(lang: Lang, now: Option<Route>, texts: seq<seq<byte>>): nat {
    if now.None? then Transfers(lang, texts) else 2 * Changes(lang, now.value, texts)
  }

  ghost predicate AllArrive(sends: Sends, i: nat, n: nat) {
    forall j :: i <= j < i + n ==> sends(j).Delivered?
  }

  /**
   The system against the sequential server, whatever becomes of the sends:
   its replies are always a beginning of the server's, and all of them
   exactly when every send that is needed arrives; then the sends are those
   needed. In every case one copy stays open for the gateway, once it has sent
   the descriptor, and for every hand-back that was sent.
   */
  lemma {:induction false} PlayIsSequential(lang: Lang, now: Option<Route>, texts: seq<seq<byte>>, sends: Sends, i: nat)
    ensures var p, n := Play(lang, now, texts, sends, i), Needed(lang, now, texts);
            && p.replies <= Sequential(lang, texts)
            && (p.replies == Sequential(lang, texts) <==> AllArrive(sends, i, n))
            && p.transfers <= n
            && (AllArrive(sends, i, n) ==> p.transfers == n)
            && 0 <= p.transfers
            && p.copies == (if now.None? then (if p.transfers == 0 then -1 else p.transfers / 2) else (p.transfers + 1) / 2 - 1)
    decreases |texts|
  {
    hide Parse;
    if FirstRequest(lang, texts).Some? {
      var r, rest := FirstRequest(lang, texts).value, texts[1..];
      var one := [Compute(lang, r)];
      var k := if now.None? then i + 1 else if now.value == r.route then i else i + 2;
      PlayIsSequential(lang, Some(r.route), rest, sends, k);
      Split(sends, i, k, Needed(lang, Some(r.route), rest));
      var p := Play(lang, Some(r.route), rest, sends, k).replies;
      Prepended(one, p, Sequential(lang, rest));
      assert [] + (one + p) == one + p;
    }
  }

  lemma Split(sends: Sends, i: nat, k: nat, n: nat)
    requires i <= k <= i + 2
    ensures AllArrive(sends, i, n + (k - i)) <==>
            (k > i ==> sends(i).Delivered?) && (k > i + 1 ==> sends(i + 1).Delivered?) && AllArrive(sends, k, n)
  {
  }

  lemma Prepended(one: seq<seq<byte>>, p: seq<seq<byte>>, q: seq<seq<byte>>)
    ensures p <= q ==> one + p <= one + q
    ensures one + p == one + q <==> p == q
  {
    assert (one + p)[|one|..] == p && (one + q)[|one|..] == q;
  }

  /** Position `i` is a request to another function than the one before it. */
  predicate Turns(lang: Lang, texts: seq<seq<byte>>, i: nat)
    requires 0 < i < |texts|
  {
    var before, here := Parse(lang, texts[i - 1]), Parse(lang, texts[i]);
    before.Some? && here.Some? && before.value.route != here.value.route
  }

  /** Adjacent route changes among the first `n` requests. */
  function Adjacent(lang: Lang, texts: seq<seq<byte>>, n: nat): nat
    requires n <= |texts|
  {
    if n <= 1 then 0 else Adjacent(lang, texts, n - 1) + (if Turns(lang, texts, n - 1) then 1 else 0)
  }

  ghost predicate Parsable(lang: Lang, texts: seq<seq<byte>>) {
    forall i :: 0 <= i < |texts| ==> Parse(lang, texts[i]).Some?
  }

  lemma {:induction false} AdjacentTail(lang: Lang, texts: seq<seq<byte>>, n: nat)
    requires 1 <= n <= |texts|
    ensures Adjacent(lang, texts, n) == (if n > 1 && Turns(lang, texts, 1) then 1 else 0) + Adjacent(lang, texts[1..], n - 1)
  {
    hide Parse;
    if n > 2 {
      AdjacentTail(lang, texts, n - 1);
    }
  }

  /** On parsable requests the sequential server answers each one, and the route changes are the adjacent ones. */
  lemma {:induction false} SequentialAnswersEach(lang: Lang, texts: seq<seq<byte>>)
    requires Parsable(lang, texts) && texts != []
    ensures |Sequential(lang, texts)| == |texts|
    ensures forall i :: 0 <= i < |texts| ==> Sequential(lang, texts)[i] == Compute(lang, Parse(lang, texts[i]).value)
    ensures Right(lang, texts, Sequential(lang, texts))
    ensures Transfers(lang, texts) == 1 + 2 * Adjacent(lang, texts, |texts|)
  {
    hide Parse, Right;
    SequentialIsRight(lang, texts, Sequential(lang, texts));
    var rest := texts[1..];
    AdjacentTail(lang, texts, |texts|);
    if rest != [] {
      assert forall i :: 0 <= i < |rest| ==> rest[i] == texts[i + 1];
      SequentialAnswersEach(lang, rest);
    }
  }

  // ---------------------------------------------------------------- the connection

  datatype OutRec = OutRec(number: nat, text: seq<byte>)

  /** The texts of a list of records. */
  function TextsOf(out: seq<OutRec>): seq<seq<byte>> {
    if out == [] then [] else TextsOf(out[..|out| - 1]) + [out[|out| - 1].text]
  }

  /** A TLS session: its two counters and the decrypted text not yet read. Export and import copy it. */
  datatype Tls = Tls(readNo: nat, writeNo: nat, pending: seq<byte>)

  /** What successive `wolfSSL_read` calls return for the pending text and the records behind it. */
  function Reads(pending: seq<byte>, rest: seq<seq<byte>>): seq<seq<byte>>
    decreases |rest|, |pending|
  {
    if pending != [] then
      var n := Min(|pending|, MAX_REQUEST - 1);
      [pending[..n]] + Reads(pending[n..], rest)
    else if rest == [] then []
    else Reads(rest[0], rest[1..])
  }

  /** Requests that fit in one record and one read are read one by one. */
  lemma {:induction false} OneReadEach(requests: seq<seq<byte>>)
    requires forall i :: 0 <= i < |requests| ==> 0 < |requests[i]| < 8192
    ensures Reads([], requests) == requests
  {
    if requests != [] {
      var r := requests[0];
      OneReadEach(requests[1..]);
      assert r[|r|..] == [] && r[..|r|] == r;
      assert Reads(r, requests[1..]) == [r] + Reads([], requests[1..]);
    }
  }

  /** A record of 8192 bytes is read in two: a read takes at most 8191. */
  lemma TwoReads(record: seq<byte>)
    requires |record| == 8192
    ensures Reads([], [record]) == [record[..8191], record[8191..]]
  {
    assert [record][1..] == [];
    assert Reads([], [record]) == Reads(record, []);
    var last := record[8191..];
    assert last[..1] == last && last[1..] == [];
    assert Reads(last, []) == [last];
  }

  /** The client's records, the server's records, how often the descriptor was to be sent and was sent, and how many copies are open. */
  class Connection {
    const records: seq<seq<byte>>
    const firstWrite: nat
    var out: seq<OutRec>
    var attempts: nat
    var transfers: nat
    var copies: int

    constructor (records: seq<seq<byte>>, firstWrite: nat)
      ensures this.records == records && this.firstWrite == firstWrite
      ensures out == [] && attempts == 0 && transfers == 0 && copies == 1
    {
      this.records, this.firstWrite := records, firstWrite;
      out, attempts, transfers, copies := [], 0, 0, 1;
    }

    /** What has happened on the connection so far. */
    ghost function Sum(): Account
      reads this
    {
      Account(Texts(), transfers, copies)
    }

    /** `sendmsg` of the descriptor to another process. */
    method SendFd(sends: Sends) returns (rc: int)
      modifies this`attempts, this`transfers
      ensures rc == (if sends(old(attempts)).Unsent? then -1 else 0) && attempts == old(attempts) + 1
      ensures transfers == old(transfers) + (if rc == 0 then 1 else 0)
    {
      rc := if sends(attempts).Unsent? then -1 else 0;
      attempts := attempts + 1;
      if rc == 0 {
        transfers := transfers + 1;
      }
    }

    /** `recvmsg` of what was last sent: the receiver then has a copy of its own. */
    method ReceiveFd(sends: Sends) returns (rc: int)
      requires attempts > 0
      modifies this`copies
      ensures rc == (if sends(attempts - 1).Delivered? then 0 else -1)
      ensures copies == old(copies) + (if rc == 0 then 1 else 0)
    {
      rc := if sends(attempts - 1).Delivered? then 0 else -1;
      if rc == 0 {
        copies := copies + 1;
      }
    }

    /** `t` is a session on this connection whose counters are in step with it. */
    ghost predicate InStep(t: Tls)
      reads this
    {
      t.readNo <= |records| && t.writeNo == firstWrite + |out| && Numbered()
    }

    /** The records written follow each other. */
    ghost predicate Numbered()
      reads this
    {
      forall i :: 0 <= i < |out| ==> out[i].number == firstWrite + i
    }

    ghost function Unread(t: Tls): seq<seq<byte>>
      requires t.readNo <= |records|
    {
      Reads(t.pending, records[t.readNo..])
    }

    ghost function Unspent(t: Tls): nat {
      if t.readNo <= |records| then |Unread(t)| else 0
    }

    ghost function Texts(): seq<seq<byte>>
      reads this
    {
      TextsOf(out)
    }

    /** `wolfSSL_write` of one response. */
    method Write(t: Tls, text: seq<byte>) returns (t': Tls)
      requires InStep(t)
      modifies this`out
      ensures InStep(t') && t' == t.(writeNo := t.writeNo + 1) && Texts() == old(Texts()) + [text]
    {
      ghost var was := out;
      out := out + [OutRec(t.writeNo, text)];
      assert out[..|out| - 1] == was;
      t' := t.(writeNo := t.writeNo + 1);
    }

    /** `wolfSSL_read(ssl, buf, MAX_REQUEST_SZ - 1)`. */
    method Read(t: Tls, buf: array<byte>) returns (t': Tls, n: nat)
      requires InStep(t) && buf.Length == MAX_REQUEST
      modifies buf
      ensures InStep(t') && n < MAX_REQUEST && buf[n..] == old(buf[n..])
      ensures if n == 0 then Unread(t) == [] else Unread(t) == [buf[..n]] + Unread(t')
    {
      t' := t;
      while t'.pending == [] && t'.readNo < |records|
        invariant InStep(t') && Unread(t') == Unread(t)
        decreases |records| - t'.readNo
      {
        assert records[t'.readNo..][1..] == records[t'.readNo + 1..];
        t' := t'.(readNo := t'.readNo + 1, pending := records[t'.readNo]);
      }
      n := Min(|t'.pending|, MAX_REQUEST - 1);
      forall i | 0 <= i < n {
        buf[i] := t'.pending[i];
      }
      assert buf[..n] == t'.pending[..n];
      t' := t'.(pending := t'.pending[n..]);
    }
  }

  // ---------------------------------------------------------------- the processes

  /** `migration_msg_t`. */
  class Message {
    var functionName: Option<Route>
    var blob: Tls
    var request: array<byte>
    var requestLen: nat
    var a: real
    var b: real

    constructor ()
      ensures fresh(request) && request.Length == MAX_REQUEST && functionName == None
      ensures request[..] == seq(MAX_REQUEST, _ => NUL)
    {
      functionName, blob, requestLen, a, b := None, Tls(0, 0, []), 0, 0.0, 0.0;
      request := new byte[MAX_REQUEST](_ => NUL);
    }

    /** The message carries request `r`, both as text and parsed. */
    ghost predicate Carries(lang: Lang, r: Request)
      reads this, request
    {
      && request.Length == MAX_REQUEST && Parse(lang, request[..]) == Some(r)
      && functionName == Some(r.route) && a == r.a && b == r.b
    }

    /** The first half of `parse_request`: the word after the first space of the line. */
    method CutTarget() returns (target: Option<seq<byte>>)
      ensures target == Target(RequestLine(request[..]))
    {
      hide Find, CStr;
      var line := Take(CStr(request[..]), 255);
      line := line[..Find(line, LF)];
      line := line[..Find(line, CR)];
      var space := Find(line, SP);
      if space == |line| {
        return None;
      }
      var rest := line[space + 1..];
      target := Some(rest[..Find(rest, SP)]);
    }

    /** The last part: the operands, zero where the query has none. */
    method ParseOperands(lang: Lang, query: seq<byte>)
      modifies this`a, this`b
      ensures a == Operand(lang, query, LETTER_A) && b == Operand(lang, query, LETTER_B)
    {
      hide Session.FindSub;
      a, b := 0.0, 0.0;
      var pa, pb := Session.FindSub(query, [LETTER_A, EQUALS]), Session.FindSub(query, [LETTER_B, EQUALS]);
      if pa.Some? && pa.value + 2 <= |query| {
        a := lang.atof(query[pa.value + 2..]);
      }
      if pb.Some? && pb.value + 2 <= |query| {
        b := lang.atof(query[pb.value + 2..]);
      }
    }

    /** `parse_request`: fills in the route and the operands, or changes nothing. */
    method ParseRequest(lang: Lang) returns (rc: int)
      requires request.Length == MAX_REQUEST
      modifies this`functionName, this`a, this`b
      ensures rc == (if Parse(lang, request[..]).Some? then 0 else -1)
      ensures rc == 0 ==> Carries(lang, Parse(lang, request[..]).value)
      ensures rc != 0 ==> functionName == old(functionName) && a == old(a) && b == old(b)
    {
      hide Target, RequestLine, Operand, Find;
      var target := CutTarget();
      if target.None? {
        return -1;
      }
      var q := Find(target.value, QUERY);
      var path, query := Take(target.value[..q], 63), [];
      if q < |target.value| {
        query := Take(target.value[q + 1..], 127);
      }
      if path == SUM_PATH {
        functionName := Some(Sum);
      } else if path == PRODUCT_PATH {
        functionName := Some(Product);
      } else {
        return -1;
      }
      ParseOperands(lang, query);
      rc := 0;
    }

    /** Reads the next request into a cleared buffer; what is parsed later is what was read. */
    method ReadRequest(lang: Lang, conn: Connection, t: Tls) returns (t': Tls)
      requires request.Length == MAX_REQUEST && conn.InStep(t)
      modifies this`requestLen, request
      ensures conn.InStep(t')
      ensures requestLen == 0 ==> conn.Unread(t) == []
      ensures requestLen > 0 ==>
                var all := conn.Unread(t);
                all != [] && all[1..] == conn.Unread(t') && Parse(lang, request[..]) == Parse(lang, all[0])
    {
      hide Parse, Reads;
      forall i | 0 <= i < MAX_REQUEST {
        request[i] := NUL;
      }
      ghost var cleared := request[..];
      t', requestLen := conn.Read(t, request);
      ghost var n := requestLen;
      assert forall i :: n <= i < MAX_REQUEST ==> request[i] == request[n..][i - n] == cleared[n..][i - n] == NUL;
      assert request[..][..n] == request[..n];
      Padded(lang, request[..], n);
    }
  }

  lemma PlusAssoc(a: Account, b: Account, c: Account)
    ensures Plus(Plus(a, b), c) == Plus(a, Plus(b, c))
    ensures Plus(a, Account([], 0, 0)) == a
  {
    assert (a.replies + b.replies) + c.replies == a.replies + (b.replies + c.replies);
    assert a.replies + [] == a.replies;
  }

  /** The gateway on a new connection: consume the first request and carry it to its worker, or close. */
  method InitialRoute(lang: Lang, conn: Connection, sends: Sends) returns (msg: Message, routed: bool)
    requires conn.out == [] && conn.copies == 1 && conn.transfers == 0 && conn.attempts == 0
    modifies conn`attempts, conn`transfers, conn`copies
    ensures fresh(msg) && fresh(msg.request) && conn.InStep(msg.blob)
    ensures routed == (FirstRequest(lang, Reads([], conn.records)).Some? && sends(0).Delivered?)
    ensures routed ==> && msg.Carries(lang, FirstRequest(lang, Reads([], conn.records)).value)
                       && conn.Unread(msg.blob) == Reads([], conn.records)[1..]
                       && conn.attempts == 1 && conn.transfers == 1 && conn.copies == 2
    ensures !routed ==>
              var stays := FirstRequest(lang, Reads([], conn.records)).Some? && sends(0).Dropped?;
              conn.transfers == conn.copies == if stays then 1 else 0
  {
    hide Parse;
    msg := new Message();
    var ssl := Tls(0, conn.firstWrite, []);
    assert conn.records[0..] == conn.records;
    ssl := msg.ReadRequest(lang, conn, ssl);
    msg.blob := ssl;
    if msg.requestLen > 0 {
      var rc := msg.ParseRequest(lang);
      if rc == 0 {
        var sent := conn.SendFd(sends);
        if sent < 0 {
          conn.copies := conn.copies - 1;
          return msg, false;
        }
        var received := conn.ReceiveFd(sends);
        return msg, received == 0;
      }
    }
    conn.copies := conn.copies - 1;
    routed := false;
  }

  /** The gateway on a message from a worker: parse the carried request again, carry it on, and close its own copy, sent or not. */
  method ReturnPath(lang: Lang, conn: Connection, msg: Message, sends: Sends, ghost r: Request) returns (routed: bool)
    requires msg.Carries(lang, r)
    modifies conn`attempts, conn`transfers, conn`copies, msg`functionName, msg`a, msg`b
    ensures routed == sends(old(conn.attempts)).Delivered? && msg.Carries(lang, r)
    ensures conn.attempts == old(conn.attempts) + 1
    ensures conn.transfers == old(conn.transfers) + (if sends(old(conn.attempts)).Unsent? then 0 else 1)
    ensures conn.copies == old(conn.copies) - (if routed then 0 else 1)
  {
    hide Parse;
    routed := false;
    var rc := msg.ParseRequest(lang);
    if rc == 0 {
      var sent := conn.SendFd(sends);
      if sent == 0 {
        rc := conn.ReceiveFd(sends);
        routed := rc == 0;
      }
    }
    conn.copies := conn.copies - 1;
  }

  /**
   A worker with a message for it: answer, read the next request, and go on
   while it is for this worker. What has happened and what is owed are together
   what they were at the start.
   */
  method Work(me: Route, lang: Lang, conn: Connection, msg: Message, sends: Sends, ghost r: Request)
    returns (back: bool, ghost next: Request)
    requires msg.Carries(lang, r) && r.route == me && conn.InStep(msg.blob)
    modifies conn`out, conn`attempts, conn`transfers, conn`copies, msg, msg.request
    ensures msg.request == old(msg.request)
    ensures var total := Plus(old(conn.Sum()), Owed(lang, r, conn.Unread(old(msg.blob)), sends, old(conn.attempts)));
            if back
            then && conn.InStep(msg.blob) && msg.Carries(lang, next) && next.route != me
                 && Plus(conn.Sum(), Forward(lang, next, conn.Unread(msg.blob), sends, conn.attempts)) == total
                 && |conn.Unread(msg.blob)| < |conn.Unread(old(msg.blob))|
            else conn.Sum() == total && conn.Numbered()
  {
    hide Parse, Result, Reads, Play, Forward;
    ghost var total := Plus(conn.Sum(), Owed(lang, r, conn.Unread(msg.blob), sends, conn.attempts));
    var ssl := msg.blob;
    next := r;
    while true
      invariant msg.request == old(msg.request) && conn.InStep(ssl) && msg.Carries(lang, next) && next.route == me
      invariant Plus(conn.Sum(), Owed(lang, next, conn.Unread(ssl), sends, conn.attempts)) == total
      invariant |conn.Unread(ssl)| <= |conn.Unread(old(msg.blob))|
      decreases |conn.Unread(ssl)|
    {
      var text := lang.reply(me, Result(me, msg.a, msg.b));
      ghost var unread, sum := conn.Unread(ssl), conn.Sum();
      ssl := conn.Write(ssl, text);
      Answered(lang, sum, conn.Sum(), next, unread, sends, conn.attempts);
      PlayStep(lang, me, unread, sends, conn.attempts);
      ssl := msg.ReadRequest(lang, conn, ssl);
      if msg.requestLen == 0 {
        conn.copies := conn.copies - 1;
        PlusClose(Account(conn.Texts(), conn.transfers, conn.copies + 1));
        return false, next;
      }
      var rc := msg.ParseRequest(lang);
      if rc != 0 {
        conn.copies := conn.copies - 1;
        PlusClose(Account(conn.Texts(), conn.transfers, conn.copies + 1));
        return false, next;
      }
      next := Parse(lang, msg.request[..]).value;
      if msg.functionName != Some(me) {
        back := HandBack(conn, msg, ssl, sends, lang, next, total);
        return back, next;
      }
    }
  }

  /** Handing back: this worker's own copy stays open unless the send fails; `back` says whether the gateway has received it. */
  method HandBack(conn: Connection, msg: Message, ssl: Tls, sends: Sends, ghost lang: Lang, ghost next: Request, ghost total: Account)
    returns (back: bool)
    requires conn.InStep(ssl) && msg.Carries(lang, next)
    requires total == Plus(conn.Sum(), if sends(conn.attempts).Delivered?
                                       then Plus(Account([], 1, 1), Forward(lang, next, conn.Unread(ssl), sends, conn.attempts + 1))
                                       else Stranded(sends(conn.attempts), false))
    modifies conn`attempts, conn`transfers, conn`copies, msg`blob
    ensures msg.blob == ssl && msg.Carries(lang, next) && conn.InStep(ssl)
    ensures if back then Plus(conn.Sum(), Forward(lang, next, conn.Unread(ssl), sends, conn.attempts)) == total else conn.Sum() == total
  {
    hide Parse, Forward, Reads;
    msg.blob := ssl;
    ghost var sum := conn.Sum();
    assert sum.replies + [] == sum.replies;
    back := false;
    var sent := conn.SendFd(sends);
    if sent < 0 {
      conn.copies := conn.copies - 1;
      return;
    }
    var received := conn.ReceiveFd(sends);
    back := received == 0;
    if back {
      PlusAssoc(sum, Account([], 1, 1), Forward(lang, next, conn.Unread(ssl), sends, conn.attempts));
    }
  }

  lemma PlusClose(a: Account)
    ensures Plus(a, CLOSE) == a.(copies := a.copies - 1)
  {
    assert a.replies + [] == a.replies;
  }

  /** A reply moves from what is owed to what has happened. */
  lemma Answered(lang: Lang, before: Account, after: Account, r: Request, texts: seq<seq<byte>>, sends: Sends, i: nat)
    requires after == before.(replies := before.replies + [Compute(lang, r)])
    ensures Plus(before, Owed(lang, r, texts, sends, i)) == Plus(after, Play(lang, Some(r.route), texts, sends, i))
  {
    hide Play, Compute;
    PlusAssoc(before, Account([Compute(lang, r)], 0, 0), Play(lang, Some(r.route), texts, sends, i));
  }

  /** What a worker finds when it reads on. */
  lemma PlayStep(lang: Lang, me: Route, texts: seq<seq<byte>>, sends: Sends, i: nat)
    ensures Play(lang, Some(me), texts, sends, i) ==
            if texts == [] || Parse(lang, texts[0]).None? then CLOSE
            else
              var r := Parse(lang, texts[0]).value;
              if r.route == me then Owed(lang, r, texts[1..], sends, i)
              else if sends(i).Delivered? then Plus(Account([], 1, 1), Forward(lang, r, texts[1..], sends, i + 1))
              else Stranded(sends(i), false)
  {
    hide Parse, Forward;
  }

  /** The carried request `r` is with its worker, and what has happened and what is owed are together `total`. */
  ghost predicate Underway(lang: Lang, conn: Connection, msg: Message, sends: Sends, r: Request, total: Account)
    reads conn, msg, msg.request
  {
    && conn.InStep(msg.blob) && msg.Carries(lang, r)
    && Plus(conn.Sum(), Owed(lang, r, conn.Unread(msg.blob), sends, conn.attempts)) == total
  }

  /** The route's worker until it closes or hands back, and the gateway carrying the request on. */
  method Round(lang: Lang, conn: Connection, msg: Message, sends: Sends, ghost r: Request, ghost total: Account)
    returns (routed: bool, ghost next: Request)
    requires Underway(lang, conn, msg, sends, r, total)
    modifies conn, msg, msg.request
    ensures msg.request == old(msg.request)
    ensures routed ==> Underway(lang, conn, msg, sends, next, total) && conn.Unspent(msg.blob) < conn.Unspent(old(msg.blob))
    ensures !routed ==> conn.Sum() == total && conn.Numbered()
  {
    hide Parse, Reads, Play, TextsOf;
    var route := if msg.functionName == Some(Sum) then Sum else Product;
    routed, next := Work(route, lang, conn, msg, sends, r);
    if routed {
      ghost var sum, i, unread := conn.Sum(), conn.attempts, conn.Unread(msg.blob);
      routed := ReturnPath(lang, conn, msg, sends, next);
      if routed {
        Forwarded(lang, sum, next, unread, sends, i);
      } else {
        NotForwarded(lang, sum, next, unread, sends, i);
      }
    }
  }

  lemma NotForwarded(lang: Lang, sum: Account, r: Request, texts: seq<seq<byte>>, sends: Sends, i: nat)
    requires !sends(i).Delivered?
    ensures Plus(sum, Forward(lang, r, texts, sends, i))
            == Account(sum.replies, sum.transfers + (if sends(i).Unsent? then 0 else 1), sum.copies - 1)
  {
    assert sum.replies + [] == sum.replies;
  }

  lemma Forwarded(lang: Lang, sum: Account, r: Request, texts: seq<seq<byte>>, sends: Sends, i: nat)
    requires sends(i).Delivered?
    ensures Plus(sum, Forward(lang, r, texts, sends, i)) == Plus(sum.(transfers := sum.transfers + 1), Owed(lang, r, texts, sends, i + 1))
  {
    hide Play, Compute;
  }

  /**
   The whole system on one connection, whatever becomes of the sends: what
   happens is what `Play` says, on records numbered without gap or repeat. By
   `PlayIsSequential` the replies are a beginning of the sequential server's,
   and all of them, with one send and then two for each route change, exactly
   when the sends needed for that arrive. Once the gateway has sent the
   descriptor, the connection never closes: a copy stays open for the gateway
   and for every hand-back.
   */
  method Serve(lang: Lang, conn: Connection, sends: Sends)
    requires conn.out == [] && conn.copies == 1 && conn.transfers == 0 && conn.attempts == 0
    modifies conn
    ensures var texts := Reads([], conn.records);
            && conn.Sum() == Whole(lang, texts, sends) && conn.Numbered()
            && conn.Texts() <= Sequential(lang, texts) && Right(lang, texts, conn.Texts())
            && (conn.Texts() == Sequential(lang, texts) <==> AllArrive(sends, 0, Transfers(lang, texts)))
            && (AllArrive(sends, 0, Transfers(lang, texts)) ==> conn.transfers == Transfers(lang, texts))
            && conn.transfers <= Transfers(lang, texts)
            && conn.copies == (if conn.transfers == 0 then 0 else conn.transfers / 2 + 1)
            && (Parsable(lang, texts) && AllArrive(sends, 0, Transfers(lang, texts)) ==> |conn.Texts()| == |texts|)
  {
    hide Parsable, Parse, Reads, Sequential, Transfers, Whole, AllArrive, Underway, Right;
    ghost var total := Whole(lang, Reads([], conn.records), sends);
    var msg, routed, first := Begin(lang, conn, sends, total);
    if routed {
      ServeRounds(lang, conn, msg, sends, first, total);
    }
    WholeIsSequential(lang, Reads([], conn.records), sends);
    SequentialIsRight(lang, Reads([], conn.records), conn.Texts());
    AllAnswered(lang, Reads([], conn.records));
  }

  /** The whole account of a connection. */
  function Whole(lang: Lang, texts: seq<seq<byte>>, sends: Sends): Account {
    Plus(Account([], 0, 1), Play(lang, None, texts, sends, 0))
  }

  lemma WholeIsSequential(lang: Lang, texts: seq<seq<byte>>, sends: Sends)
    ensures var w := Whole(lang, texts, sends);
            && w.replies <= Sequential(lang, texts)
            && (w.replies == Sequential(lang, texts) <==> AllArrive(sends, 0, Transfers(lang, texts)))
            && (AllArrive(sends, 0, Transfers(lang, texts)) ==> w.transfers == Transfers(lang, texts))
            && w.transfers <= Transfers(lang, texts)
            && w.copies == (if w.transfers == 0 then 0 else w.transfers / 2 + 1)
  {
    hide Parse, Sequential, Transfers, Play, AllArrive;
    PlayIsSequential(lang, None, texts, sends, 0);
    var p := Play(lang, None, texts, sends, 0);
    assert [] + p.replies == p.replies;
  }

  /** The first routing, as part of the account. */
  method Begin(lang: Lang, conn: Connection, sends: Sends, ghost total: Account)
    returns (msg: Message, routed: bool, ghost first: Request)
    requires conn.out == [] && conn.copies == 1 && conn.transfers == 0 && conn.attempts == 0
    requires total == Whole(lang, Reads([], conn.records), sends)
    modifies conn`attempts, conn`transfers, conn`copies
    ensures fresh(msg) && fresh(msg.request)
    ensures if routed then Underway(lang, conn, msg, sends, first, total) else conn.Sum() == total && conn.Numbered()
  {
    ghost var texts := Reads([], conn.records);
    WholeFirst(lang, texts, sends);
    hide Parse, Reads, FirstRequest, Play, Whole, Owed, Plus;
    msg, routed := InitialRoute(lang, conn, sends);
    first := if routed then FirstRequest(lang, texts).value else Request(Sum, 0.0, 0.0);
  }

  lemma WholeFirst(lang: Lang, texts: seq<seq<byte>>, sends: Sends)
    ensures var first := FirstRequest(lang, texts);
            Whole(lang, texts, sends) ==
            if first.None? || sends(0).Unsent? then Account([], 0, 0)
            else if sends(0).Dropped? then Account([], 1, 1)
            else Plus(Account([], 1, 2), Owed(lang, first.value, texts[1..], sends, 1))
  {
    hide Parse, Compute;
  }

  /** Rounds until the connection is closed. */
  method ServeRounds(lang: Lang, conn: Connection, msg: Message, sends: Sends, ghost first: Request, ghost total: Account)
    requires Underway(lang, conn, msg, sends, first, total)
    modifies conn, msg, msg.request
    ensures conn.Sum() == total && conn.Numbered()
  {
    hide Underway;
    var routed := true;
    ghost var r := first;
    while routed
      invariant msg.request == old(msg.request)
      invariant if routed then Underway(lang, conn, msg, sends, r, total) else conn.Sum() == total && conn.Numbered()
      decreases routed, conn.Unspent(msg.blob)
    {
      routed, r := Round(lang, conn, msg, sends, r, total);
    }
  }
}
