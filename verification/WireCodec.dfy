/** The bytes that client and server exchange, as functions of the messages. */
module WireCodec {
  newtype Byte = x: int | 0 <= x < 256

  const U32: nat := 0x1_0000_0000
  const U16: nat := 0x1_0000

  type Id = x: nat | x < U32
  type InputState = x: nat | x < U16
  type Matrix = m: seq<Byte> | |m| == 64 witness seq(64, _ => 0)

  datatype ClientMsg =
    | AddDrawable(id: Id, templ: seq<Byte>)
    | AddAudible(id: Id, templ: seq<Byte>)
    | TransDrawable(id: Id, transform: Matrix)
    | TransAudible(id: Id, transform: Matrix)
    | DelDrawable(id: Id)
    | DelAudible(id: Id)

  datatype ServerMsg = Shutdown | Input(state: InputState) | LoadPlayer(templ: seq<Byte>)

  // ---- Plain data ----

  /** The `n` bytes of a number in memory, low byte first. */
  function Pod(v: nat, n: nat): (b: seq<Byte>)
    ensures |b| == n
  {
    if n == 0 then [] else [(v % 256) as Byte] + Pod(v / 256, n - 1)
  }

  function FromPod(b: seq<Byte>): nat {
    if b == [] then 0 else b[0] as nat + 256 * FromPod(b[1..])
  }

  function Bound(n: nat): (r: nat)
    ensures r > 0
  {
    if n == 0 then 1 else 256 * Bound(n - 1)
  }

  lemma {:induction false} PodRoundTrip(v: nat, n: nat)
    requires v < Bound(n)
    ensures FromPod(Pod(v, n)) == v
  {
    if n > 0 {
      PodRoundTrip(v / 256, n - 1);
    }
  }

  lemma {:induction false} FromPodBound(b: seq<Byte>)
    ensures FromPod(b) < Bound(|b|)
  {
    if b != [] {
      FromPodBound(b[1..]);
    }
  }

  // ---- Strings ----

  /** What a string assigned from a zero-terminated buffer keeps. */
  function CString(s: seq<Byte>): seq<Byte> {
    if s == [] || s[0] == 0 then [] else [s[0]] + CString(s[1..])
  }

  /** The size field wraps at 32 bits, and only that many characters follow. */
  function SentLength(s: seq<Byte>): (n: nat)
    ensures n < U32 && n <= |s|
  {
    |s| % U32
  }

  function EncodeString(s: seq<Byte>): seq<Byte> {
    Pod(SentLength(s), 4) + s[..SentLength(s)]
  }

  /** A value read and the bytes left, or why there is none. */
  datatype Received<+T> =
    | Got(value: T, rest: seq<Byte>)
    | EndOfStream
    | UnknownType(tag: nat)
    | NoBuffer

  function TakePod(b: seq<Byte>, n: nat): (r: Received<nat>)
    ensures r.Got? ==> r.value < Bound(n) && n <= |b| && r.rest == b[n..]
  {
    if |b| < n then EndOfStream
    else
      FromPodBound(b[..n]);
      Got(FromPod(b[..n]), b[n..])
  }

  /** A length of 2^32 - 1 makes the buffer size wrap to zero, and the code has no defined meaning. */
  function DecodeString(b: seq<Byte>): Received<seq<Byte>> {
    match TakePod(b, 4)
    case Got(len, rest) =>
      if len + 1 == U32 then NoBuffer
      else if |rest| < len then EndOfStream
      else Got(CString(rest[..len]), rest[len..])
    case _ => EndOfStream
  }

  /** What the receiver makes of a string. */
  function Arrives(s: seq<Byte>): seq<Byte> {
    CString(s[..SentLength(s)])
  }

  lemma PodFirst(v: nat, n: nat, rest: seq<Byte>)
    requires v < Bound(n)
    ensures TakePod(Pod(v, n) + rest, n) == Got(v, rest)
  {
    PodRoundTrip(v, n);
    assert (Pod(v, n) + rest)[..n] == Pod(v, n) && (Pod(v, n) + rest)[n..] == rest;
  }

  lemma FourBytes()
    ensures Bound(4) == U32 && Bound(2) == U16
  {
    assert Bound(2) == 65536;
    assert Bound(3) == 256 * 65536;
  }

  lemma StringArrives(s: seq<Byte>, rest: seq<Byte>)
    requires SentLength(s) + 1 != U32
    ensures DecodeString(EncodeString(s) + rest) == Got(Arrives(s), rest)
  {
    var n := SentLength(s);
    var sent := s[..n];
    FourBytes();
    assert EncodeString(s) + rest == Pod(n, 4) + (sent + rest);
    PodFirst(n, 4, sent + rest);
    assert (sent + rest)[..n] == sent && (sent + rest)[n..] == rest;
  }

  /** The buffer for a string whose size field holds 2^32 - 1 cannot be made. */
  lemma StringUnbuffered(s: seq<Byte>, rest: seq<Byte>)
    requires SentLength(s) + 1 == U32
    ensures DecodeString(EncodeString(s) + rest) == NoBuffer
  {
    var n := SentLength(s);
    FourBytes();
    assert EncodeString(s) + rest == Pod(n, 4) + (s[..n] + rest);
    PodFirst(n, 4, s[..n] + rest);
  }

  /** No NUL, and a size for which both the field and the receiver's buffer are large enough. */
  predicate Intact(s: seq<Byte>) {
    0 !in s && |s| < U32 - 1
  }

  /** A string is read back as it was sent exactly when it is intact. */
  lemma StringUnchanged(s: seq<Byte>, rest: seq<Byte>)
    ensures DecodeString(EncodeString(s) + rest) == Got(s, rest) <==> Intact(s)
  {
    if SentLength(s) + 1 == U32 {
      StringUnbuffered(s, rest);
    } else {
      StringArrives(s, rest);
      ArrivesWhole(s);
    }
  }

  /** What a receiver keeps of a string, buffer permitting, is all of it exactly when the field fits and there is no NUL. */
  lemma ArrivesWhole(s: seq<Byte>)
    ensures Arrives(s) == s <==> |s| < U32 && 0 !in s
  {
    CStringWhole(s[..SentLength(s)]);
    if |s| < U32 {
      assert s[..SentLength(s)] == s;
    } else {
      CStringShorter(s[..SentLength(s)]);
    }
  }

  lemma {:induction false} CStringWhole(s: seq<Byte>)
    ensures CString(s) == s <==> 0 !in s
  {
    if s != [] {
      CStringWhole(s[1..]);
      assert s == [s[0]] + s[1..];
      if s[0] != 0 && CString(s) == s {
        assert CString(s)[1..] == CString(s[1..]);
      }
    }
  }

  lemma {:induction false} CStringShorter(s: seq<Byte>)
    ensures |CString(s)| <= |s|
  {
    if s != [] {
      CStringShorter(s[1..]);
    }
  }

  // ---- Messages ----

  function ClientTag(m: ClientMsg): nat {
    match m
    case AddDrawable(_, _) => 0
    case AddAudible(_, _) => 1
    case TransDrawable(_, _) => 2
    case TransAudible(_, _) => 3
    case DelDrawable(_) => 4
    case DelAudible(_) => 5
  }

  function ClientBody(m: ClientMsg): seq<Byte> {
    match m
    case AddDrawable(id, templ) => Pod(id, 4) + EncodeString(templ)
    case AddAudible(id, templ) => Pod(id, 4) + EncodeString(templ)
    case TransDrawable(id, transform) => Pod(id, 4) + transform
    case TransAudible(id, transform) => Pod(id, 4) + transform
    case DelDrawable(id) => Pod(id, 4)
    case DelAudible(id) => Pod(id, 4)
  }

  function EncodeClient(m: ClientMsg): seq<Byte> {
    Pod(ClientTag(m), 4) + ClientBody(m)
  }

  function ReadAdd(b: seq<Byte>): Received<(Id, seq<Byte>)> {
    match TakePod(b, 4)
    case Got(id, rest) =>
      FourBytes();
      (match DecodeString(rest)
       case Got(s, rest') => Got((id, s), rest')
       case NoBuffer => NoBuffer
       case _ => EndOfStream)
    case _ => EndOfStream
  }

  function ReadTrans(b: seq<Byte>): Received<(Id, Matrix)> {
    match TakePod(b, 4)
    case Got(id, rest) =>
      FourBytes();
      if |rest| < 64 then EndOfStream else Got((id, rest[..64]), rest[64..])
    case _ => EndOfStream
  }

  function ReadDel(b: seq<Byte>): Received<Id> {
    match TakePod(b, 4)
    case Got(id, rest) => FourBytes(); Got(id, rest)
    case _ => EndOfStream
  }

  function Failure<T, U>(r: Received<T>): Received<U>
    requires !r.Got?
  {
    match r
    case EndOfStream => EndOfStream
    case UnknownType(tag) => UnknownType(tag)
    case NoBuffer => NoBuffer
  }

  /** The message that the tag creates, filled from the stream. */
  function DecodeClient(b: seq<Byte>): Received<ClientMsg> {
    match TakePod(b, 4)
    case Got(tag, rest) =>
      if tag == 0 || tag == 1 then
        var r := ReadAdd(rest);
        if !r.Got? then Failure(r)
        else Got(if tag == 0 then AddDrawable(r.value.0, r.value.1) else AddAudible(r.value.0, r.value.1), r.rest)
      else if tag == 2 || tag == 3 then
        var r := ReadTrans(rest);
        if !r.Got? then Failure(r)
        else Got(if tag == 2 then TransDrawable(r.value.0, r.value.1) else TransAudible(r.value.0, r.value.1), r.rest)
      else if tag == 4 || tag == 5 then
        var r := ReadDel(rest);
        if !r.Got? then Failure(r) else Got(if tag == 4 then DelDrawable(r.value) else DelAudible(r.value), r.rest)
      else UnknownType(tag)
    case _ => EndOfStream
  }

  function ServerTag(m: ServerMsg): nat {
    match m
    case Shutdown => 0
    case Input(_) => 1
    case LoadPlayer(_) => 2
  }

  function ServerBody(m: ServerMsg): seq<Byte> {
    match m
    case Shutdown => []
    case Input(state) => Pod(state, 2)
    case LoadPlayer(templ) => EncodeString(templ)
  }

  function EncodeServer(m: ServerMsg): seq<Byte> {
    Pod(ServerTag(m), 4) + ServerBody(m)
  }

  function DecodeServer(b: seq<Byte>): Received<ServerMsg> {
    match TakePod(b, 4)
    case Got(tag, rest) =>
      if tag == 0 then Got(Shutdown, rest)
      else if tag == 1 then
        var r := TakePod(rest, 2);
        FourBytes();
        if !r.Got? then Failure(r) else Got(Input(r.value), r.rest)
      else if tag == 2 then
        var r := DecodeString(rest);
        if !r.Got? then Failure(r) else Got(LoadPlayer(r.value), r.rest)
      else UnknownType(tag)
    case _ => EndOfStream
  }

  // ---- Byte by byte ----

  /** Four bytes, the lowest first. */
  function Word(v: nat): seq<Byte> {
    [(v % 256) as Byte, (v / 0x100 % 256) as Byte, (v / 0x1_0000 % 256) as Byte, (v / 0x100_0000 % 256) as Byte]
  }

  lemma PodIsWord(v: nat)
    ensures Pod(v, 4) == Word(v)
    ensures Pod(v, 2) == Word(v)[..2]
  {
    var a, b := v / 256, v / 256 / 256;
    assert Pod(b / 256, 1) == [(b / 256 % 256) as Byte] + Pod(b / 256 / 256, 0);
    assert Pod(b, 2) == [(b % 256) as Byte] + Pod(b / 256, 1);
    assert Pod(a, 3) == [(a % 256) as Byte] + Pod(b, 2);
    assert Pod(v, 4) == [(v % 256) as Byte] + Pod(a, 3);
    assert b == v / 0x1_0000 && b / 256 == v / 0x100_0000;
    assert Pod(a, 1) == [(a % 256) as Byte] + Pod(a / 256, 0);
    assert Pod(v, 2) == [(v % 256) as Byte] + Pod(a, 1);
  }

  /** A string is its length and its characters, without a terminator. */
  lemma StringBytes(s: seq<Byte>)
    ensures EncodeString(s) == Word(|s| % U32) + s[..|s| % U32]
  {
    PodIsWord(|s| % U32);
  }

  /** What goes over the wire for a client: the number of the kind, the identifier, and what else there is. */
  lemma ClientBytes(m: ClientMsg)
    ensures EncodeClient(m)
         == match m
            case AddDrawable(id, templ) => Word(0) + (Word(id) + (Word(|templ| % U32) + templ[..|templ| % U32]))
            case AddAudible(id, templ) => Word(1) + (Word(id) + (Word(|templ| % U32) + templ[..|templ| % U32]))
            case TransDrawable(id, transform) => Word(2) + (Word(id) + transform)
            case TransAudible(id, transform) => Word(3) + (Word(id) + transform)
            case DelDrawable(id) => Word(4) + Word(id)
            case DelAudible(id) => Word(5) + Word(id)
  {
    PodIsWord(ClientTag(m));
    PodIsWord(m.id);
    if m.AddDrawable? || m.AddAudible? {
      StringBytes(m.templ);
    }
    hide Pod, EncodeString, Word;
  }

  lemma ServerBytes(m: ServerMsg)
    ensures EncodeServer(m)
         == match m
            case Shutdown => Word(0)
            case Input(state) => Word(1) + [(state % 256) as Byte, (state / 256) as Byte]
            case LoadPlayer(templ) => Word(2) + (Word(|templ| % U32) + templ[..|templ| % U32])
  {
    PodIsWord(ServerTag(m));
    match m
    case Shutdown =>
    case Input(state) => PodIsWord(state);
    case LoadPlayer(templ) => StringBytes(templ);
  }

  // ---- What arrives ----

  predicate ClientSendable(m: ClientMsg) {
    m.AddDrawable? || m.AddAudible? ==> SentLength(m.templ) + 1 != U32
  }

  function ClientArrives(m: ClientMsg): ClientMsg {
    if m.AddDrawable? || m.AddAudible? then m.(templ := Arrives(m.templ)) else m
  }

  predicate ServerSendable(m: ServerMsg) {
    m.LoadPlayer? ==> SentLength(m.templ) + 1 != U32
  }

  function ServerArrives(m: ServerMsg): ServerMsg {
    if m.LoadPlayer? then LoadPlayer(Arrives(m.templ)) else m
  }

  lemma AddArrives(id: Id, templ: seq<Byte>, rest: seq<Byte>)
    requires SentLength(templ) + 1 != U32
    ensures ReadAdd(Pod(id, 4) + EncodeString(templ) + rest) == Got((id, Arrives(templ)), rest)
  {
    FourBytes();
    assert Pod(id, 4) + EncodeString(templ) + rest == Pod(id, 4) + (EncodeString(templ) + rest);
    PodFirst(id, 4, EncodeString(templ) + rest);
    StringArrives(templ, rest);
  }

  lemma TransArrives(id: Id, transform: Matrix, rest: seq<Byte>)
    ensures ReadTrans(Pod(id, 4) + transform + rest) == Got((id, transform), rest)
  {
    FourBytes();
    assert Pod(id, 4) + transform + rest == Pod(id, 4) + (transform + rest);
    PodFirst(id, 4, transform + rest);
    assert (transform + rest)[..64] == transform && (transform + rest)[64..] == rest;
  }

  lemma ClientBodyArrives(m: ClientMsg, rest: seq<Byte>)
    requires ClientSendable(m)
    ensures m.AddDrawable? || m.AddAudible? ==> ReadAdd(ClientBody(m) + rest) == Got((m.id, Arrives(m.templ)), rest)
    ensures m.TransDrawable? || m.TransAudible? ==> ReadTrans(ClientBody(m) + rest) == Got((m.id, m.transform), rest)
    ensures m.DelDrawable? || m.DelAudible? ==> ReadDel(ClientBody(m) + rest) == Got(m.id, rest)
  {
    if m.AddDrawable? || m.AddAudible? {
      AddArrives(m.id, m.templ, rest);
    } else if m.TransDrawable? || m.TransAudible? {
      TransArrives(m.id, m.transform, rest);
    } else {
      FourBytes();
      PodFirst(m.id, 4, rest);
    }
  }

  lemma ClientMsgArrives(m: ClientMsg, rest: seq<Byte>)
    requires ClientSendable(m)
    ensures DecodeClient(EncodeClient(m) + rest) == Got(ClientArrives(m), rest)
  {
    FourBytes();
    assert EncodeClient(m) + rest == Pod(ClientTag(m), 4) + (ClientBody(m) + rest);
    PodFirst(ClientTag(m), 4, ClientBody(m) + rest);
    ClientBodyArrives(m, rest);
  }

  lemma ServerMsgArrives(m: ServerMsg, rest: seq<Byte>)
    requires ServerSendable(m)
    ensures DecodeServer(EncodeServer(m) + rest) == Got(ServerArrives(m), rest)
  {
    FourBytes();
    assert EncodeServer(m) + rest == Pod(ServerTag(m), 4) + (ServerBody(m) + rest);
    PodFirst(ServerTag(m), 4, ServerBody(m) + rest);
    match m
    case Shutdown => assert ServerBody(m) + rest == rest;
    case Input(state) => PodFirst(state, 2, rest);
    case LoadPlayer(templ) => StringArrives(templ, rest);
  }

  // ---- Streams of messages ----

  /** How a receiving loop ends: with nothing left, or at something it cannot read. */
  datatype Session<M> = Session(msgs: seq<M>, rest: seq<Byte>)

  function EncodeClients(ms: seq<ClientMsg>): seq<Byte> {
    if ms == [] then [] else EncodeClient(ms[0]) + EncodeClients(ms[1..])
  }

  function EncodeServers(ms: seq<ServerMsg>): seq<Byte> {
    if ms == [] then [] else EncodeServer(ms[0]) + EncodeServers(ms[1..])
  }

  lemma ClientProgress(b: seq<Byte>)
    ensures DecodeClient(b).Got? ==> |DecodeClient(b).rest| < |b|
  {
  }

  lemma ServerProgress(b: seq<Byte>)
    ensures DecodeServer(b).Got? ==> |DecodeServer(b).rest| < |b|
  {
  }

  /** Reads messages until the stream is empty or no further message can be read. */
  function DecodeClients(b: seq<Byte>, done: seq<ClientMsg>): Session<ClientMsg>
    decreases |b|
  {
    ClientProgress(b);
    match DecodeClient(b)
    case Got(m, rest) => DecodeClients(rest, done + [m])
    case _ => Session(done, b)
  }

  function DecodeServers(b: seq<Byte>, done: seq<ServerMsg>): Session<ServerMsg>
    decreases |b|
  {
    ServerProgress(b);
    match DecodeServer(b)
    case Got(m, rest) => DecodeServers(rest, done + [m])
    case _ => Session(done, b)
  }

  function AllClientArrive(ms: seq<ClientMsg>): seq<ClientMsg> {
    if ms == [] then [] else [ClientArrives(ms[0])] + AllClientArrive(ms[1..])
  }

  function AllServerArrive(ms: seq<ServerMsg>): seq<ServerMsg> {
    if ms == [] then [] else [ServerArrives(ms[0])] + AllServerArrive(ms[1..])
  }

  lemma Regroup<M>(done: seq<M>, m: M, rest: seq<M>)
    ensures done + [m] + rest == done + ([m] + rest)
  {
  }

  lemma EmptyClient(done: seq<ClientMsg>)
    ensures DecodeClients([], done) == Session(done, [])
  {
  }

  lemma EmptyServer(done: seq<ServerMsg>)
    ensures DecodeServers([], done) == Session(done, [])
  {
  }

  /** The stream to a client is self-delimiting: every message arrives, and not a byte is left. */
  lemma {:induction false} ClientStreamArrives(ms: seq<ClientMsg>, done: seq<ClientMsg>)
    requires forall k :: 0 <= k < |ms| ==> ClientSendable(ms[k])
    ensures DecodeClients(EncodeClients(ms), done) == Session(done + AllClientArrive(ms), [])
    decreases |ms|
  {
    hide EncodeClient, DecodeClient, ClientArrives, ClientSendable;
    if ms == [] {
      EmptyClient(done);
      assert done + [] == done;
    } else {
      var m, rest := ms[0], EncodeClients(ms[1..]);
      ClientMsgArrives(m, rest);
      ClientStreamArrives(ms[1..], done + [ClientArrives(m)]);
      Regroup(done, ClientArrives(m), AllClientArrive(ms[1..]));
    }
  }

  lemma {:induction false} ServerStreamArrives(ms: seq<ServerMsg>, done: seq<ServerMsg>)
    requires forall k :: 0 <= k < |ms| ==> ServerSendable(ms[k])
    ensures DecodeServers(EncodeServers(ms), done) == Session(done + AllServerArrive(ms), [])
    decreases |ms|
  {
    hide EncodeServer, DecodeServer, ServerArrives, ServerSendable;
    if ms == [] {
      EmptyServer(done);
      assert done + [] == done;
    } else {
      var m, rest := ms[0], EncodeServers(ms[1..]);
      ServerMsgArrives(m, rest);
      ServerStreamArrives(ms[1..], done + [ServerArrives(m)]);
      Regroup(done, ServerArrives(m), AllServerArrive(ms[1..]));
    }
  }

  predicate ClientIntact(m: ClientMsg) {
    m.AddDrawable? || m.AddAudible? ==> Intact(m.templ)
  }

  predicate ServerIntact(m: ServerMsg) {
    m.LoadPlayer? ==> Intact(m.templ)
  }

  lemma ClientUnbuffered(m: ClientMsg, rest: seq<Byte>)
    requires !ClientSendable(m)
    ensures DecodeClient(EncodeClient(m) + rest) == NoBuffer
  {
    FourBytes();
    var body := EncodeString(m.templ) + rest;
    assert EncodeClient(m) + rest == Pod(ClientTag(m), 4) + (Pod(m.id, 4) + body);
    PodFirst(ClientTag(m), 4, Pod(m.id, 4) + body);
    PodFirst(m.id, 4, body);
    StringUnbuffered(m.templ, rest);
  }

  lemma ServerUnbuffered(m: ServerMsg, rest: seq<Byte>)
    requires !ServerSendable(m)
    ensures DecodeServer(EncodeServer(m) + rest) == NoBuffer
  {
    FourBytes();
    var body := EncodeString(m.templ) + rest;
    assert EncodeServer(m) + rest == Pod(ServerTag(m), 4) + body;
    PodFirst(ServerTag(m), 4, body);
    StringUnbuffered(m.templ, rest);
  }

  lemma TailCut<M>(ms: seq<M>, k: nat)
    requires 0 < k <= |ms|
    ensures ms[1..][..k - 1] == ms[..k][1..] && ms[1..][k - 1..] == ms[k..] && ms[..k] != [] && ms[..k][0] == ms[0]
  {
  }

  /** The receiver stops for good at the first message whose string it has no buffer for. */
  lemma {:induction false} ClientStreamStops(ms: seq<ClientMsg>, done: seq<ClientMsg>, k: nat)
    requires k < |ms| && !ClientSendable(ms[k]) && forall j :: 0 <= j < k ==> ClientSendable(ms[j])
    ensures DecodeClients(EncodeClients(ms), done) == Session(done + AllClientArrive(ms[..k]), EncodeClients(ms[k..]))
    decreases k
  {
    hide EncodeClient, DecodeClient, ClientArrives, ClientSendable;
    var m, rest := ms[0], EncodeClients(ms[1..]);
    if k == 0 {
      ClientUnbuffered(m, rest);
      assert done + [] == done && ms[..0] == [] && ms[0..] == ms;
    } else {
      ClientMsgArrives(m, rest);
      ClientStreamStops(ms[1..], done + [ClientArrives(m)], k - 1);
      TailCut(ms, k);
      Regroup(done, ClientArrives(m), AllClientArrive(ms[..k][1..]));
    }
  }

  lemma {:induction false} ServerStreamStops(ms: seq<ServerMsg>, done: seq<ServerMsg>, k: nat)
    requires k < |ms| && !ServerSendable(ms[k]) && forall j :: 0 <= j < k ==> ServerSendable(ms[j])
    ensures DecodeServers(EncodeServers(ms), done) == Session(done + AllServerArrive(ms[..k]), EncodeServers(ms[k..]))
    decreases k
  {
    hide EncodeServer, DecodeServer, ServerArrives, ServerSendable;
    var m, rest := ms[0], EncodeServers(ms[1..]);
    if k == 0 {
      ServerUnbuffered(m, rest);
      assert done + [] == done && ms[..0] == [] && ms[0..] == ms;
    } else {
      ServerMsgArrives(m, rest);
      ServerStreamStops(ms[1..], done + [ServerArrives(m)], k - 1);
      TailCut(ms, k);
      Regroup(done, ServerArrives(m), AllServerArrive(ms[..k][1..]));
    }
  }

  lemma FirstClientUnsendable(ms: seq<ClientMsg>) returns (k: nat)
    ensures k <= |ms| && (forall j :: 0 <= j < k ==> ClientSendable(ms[j])) && (k < |ms| ==> !ClientSendable(ms[k]))
  {
    k := 0;
    while k < |ms| && ClientSendable(ms[k])
      invariant k <= |ms| && forall j :: 0 <= j < k ==> ClientSendable(ms[j])
    {
      k := k + 1;
    }
  }

  lemma {:induction false} ClientCount(ms: seq<ClientMsg>)
    ensures |AllClientArrive(ms)| == |ms|
    ensures forall j :: 0 <= j < |ms| ==> AllClientArrive(ms)[j] == ClientArrives(ms[j])
  {
    if ms != [] {
      ClientCount(ms[1..]);
    }
  }

  lemma ClientArrivesUnchanged(m: ClientMsg)
    requires ClientSendable(m)
    ensures ClientArrives(m) == m <==> ClientIntact(m)
  {
    if m.AddDrawable? || m.AddAudible? {
      ArrivesWhole(m.templ);
    }
  }

  lemma AllClientsArriveUnchanged(ms: seq<ClientMsg>)
    requires forall j :: 0 <= j < |ms| ==> ClientSendable(ms[j])
    ensures AllClientArrive(ms) == ms <==> forall k :: 0 <= k < |ms| ==> ClientIntact(ms[k])
  {
    ClientCount(ms);
    forall j | 0 <= j < |ms| ensures ClientArrives(ms[j]) == ms[j] <==> ClientIntact(ms[j]) {
      ClientArrivesUnchanged(ms[j]);
    }
    hide AllClientArrive, ClientArrives, ClientIntact;
    if forall k :: 0 <= k < |ms| ==> ClientIntact(ms[k]) {
      assert AllClientArrive(ms) == ms;
    }
  }

  /** A client reads exactly the messages that were sent to it if and only if every template is intact. */
  lemma ClientsUnchanged(ms: seq<ClientMsg>)
    ensures DecodeClients(EncodeClients(ms), []) == Session(ms, []) <==> forall k :: 0 <= k < |ms| ==> ClientIntact(ms[k])
  {
    var k := FirstClientUnsendable(ms);
    if k < |ms| {
      ClientStreamStops(ms, [], k);
      ClientCount(ms[..k]);
      assert !ClientIntact(ms[k]);
    } else {
      ClientStreamArrives(ms, []);
      AllClientsArriveUnchanged(ms);
      assert [] + AllClientArrive(ms) == AllClientArrive(ms);
    }
    hide *;
  }

  lemma FirstServerUnsendable(ms: seq<ServerMsg>) returns (k: nat)
    ensures k <= |ms| && (forall j :: 0 <= j < k ==> ServerSendable(ms[j])) && (k < |ms| ==> !ServerSendable(ms[k]))
  {
    k := 0;
    while k < |ms| && ServerSendable(ms[k])
      invariant k <= |ms| && forall j :: 0 <= j < k ==> ServerSendable(ms[j])
    {
      k := k + 1;
    }
  }

  lemma {:induction false} ServerCount(ms: seq<ServerMsg>)
    ensures |AllServerArrive(ms)| == |ms|
    ensures forall j :: 0 <= j < |ms| ==> AllServerArrive(ms)[j] == ServerArrives(ms[j])
  {
    if ms != [] {
      ServerCount(ms[1..]);
    }
  }

  lemma ServerArrivesUnchanged(m: ServerMsg)
    requires ServerSendable(m)
    ensures ServerArrives(m) == m <==> ServerIntact(m)
  {
    if m.LoadPlayer? {
      ArrivesWhole(m.templ);
    }
  }

  lemma AllServersArriveUnchanged(ms: seq<ServerMsg>)
    requires forall j :: 0 <= j < |ms| ==> ServerSendable(ms[j])
    ensures AllServerArrive(ms) == ms <==> forall k :: 0 <= k < |ms| ==> ServerIntact(ms[k])
  {
    ServerCount(ms);
    forall j | 0 <= j < |ms| ensures ServerArrives(ms[j]) == ms[j] <==> ServerIntact(ms[j]) {
      ServerArrivesUnchanged(ms[j]);
    }
    hide AllServerArrive, ServerArrives, ServerIntact;
    if forall k :: 0 <= k < |ms| ==> ServerIntact(ms[k]) {
      assert AllServerArrive(ms) == ms;
    }
  }

  /** A server reads exactly the messages that were sent to it if and only if every template is intact. */
  lemma ServersUnchanged(ms: seq<ServerMsg>)
    ensures DecodeServers(EncodeServers(ms), []) == Session(ms, []) <==> forall k :: 0 <= k < |ms| ==> ServerIntact(ms[k])
  {
    var k := FirstServerUnsendable(ms);
    if k < |ms| {
      ServerStreamStops(ms, [], k);
      ServerCount(ms[..k]);
      assert !ServerIntact(ms[k]);
    } else {
      ServerStreamArrives(ms, []);
      AllServersArriveUnchanged(ms);
      assert [] + AllServerArrive(ms) == AllServerArrive(ms);
    }
    hide *;
  }
}
