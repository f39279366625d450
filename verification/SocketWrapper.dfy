/** The byte stream and the code that moves messages through it. */
module Socket {
  import opened Text
  import opened WireCodec

  /** An ordered stream of bytes, written at the back and read at the front. */
  class SocketWrapper {
    var data: seq<Byte>

    constructor ()
      ensures data == []
    {
      data := [];
    }

    method Write(bytes: seq<Byte>)
      modifies this
      ensures data == old(data) + bytes
    {
      data := data + bytes;
    }

    /** Reads exactly `n` bytes; a stream that ends before keeps nothing. */
    method Read(n: nat) returns (r: Option<seq<Byte>>)
      modifies this
      ensures n <= |old(data)| ==> r == Some(old(data)[..n]) && data == old(data)[n..]
      ensures n > |old(data)| ==> r == None && data == []
    {
      if n <= |data| {
        r, data := Some(data[..n]), data[n..];
      } else {
        r, data := None, [];
      }
    }

    method WritePod(v: nat, n: nat)
      modifies this
      ensures data == old(data) + Pod(v, n)
    {
      Write(Pod(v, n));
    }

    method ReadPod(n: nat) returns (r: Option<nat>)
      modifies this
      ensures match TakePod(old(data), n)
              case Got(v, rest) => r == Some(v) && data == rest
              case _ => r == None && data == []
    {
      var b := Read(n);
      if b.None? {
        return None;
      }
      return Some(FromPod(b.value));
    }

    method WriteString(str: seq<Byte>)
      modifies this
      ensures data == old(data) + EncodeString(str)
    {
      var len := |str| % U32;
      WritePod(len, 4);
      Write(str[..len]);
    }

    /** `NoBuffer` stands for the size whose buffer would have no room for the terminator. */
    method ReadString() returns (r: Received<seq<Byte>>)
      modifies this
      ensures match DecodeString(old(data))
              case Got(s, rest) => r == Got(s, rest) && data == rest
              case failure => r == failure
    {
      var len := ReadPod(4);
      if len.None? {
        return EndOfStream;
      }
      if len.value + 1 == U32 {
        return NoBuffer;
      }
      var buf := Read(len.value);
      if buf.None? {
        return EndOfStream;
      }
      return Got(CString(buf.value), data);
    }

    method WriteAdd(id: Id, templ: seq<Byte>)
      modifies this
      ensures data == old(data) + (Pod(id, 4) + EncodeString(templ))
    {
      WritePod(id, 4);
      WriteString(templ);
    }

    method WriteTrans(id: Id, transform: Matrix)
      modifies this
      ensures data == old(data) + (Pod(id, 4) + transform)
    {
      WritePod(id, 4);
      Write(transform);
    }

    /** The frame that the server writes for one message to a client. */
    method WriteClientMsg(m: ClientMsg)
      modifies this
      ensures data == old(data) + EncodeClient(m)
    {
      WritePod(ClientTag(m), 4);
      match m {
        case AddDrawable(id, templ) => WriteAdd(id, templ);
        case AddAudible(id, templ) => WriteAdd(id, templ);
        case TransDrawable(id, transform) => WriteTrans(id, transform);
        case TransAudible(id, transform) => WriteTrans(id, transform);
        case DelDrawable(id) => WritePod(id, 4);
        case DelAudible(id) => WritePod(id, 4);
      }
      Framed(old(data), Pod(ClientTag(m), 4), ClientBody(m));
    }

    static lemma Framed(before: seq<Byte>, tag: seq<Byte>, body: seq<Byte>)
      ensures before + tag + body == before + (tag + body)
    {
    }

    /** Reads the tag, creates the message for it and lets it read itself. */
    method ReadClientMsg() returns (r: Received<ClientMsg>)
      modifies this
      ensures match DecodeClient(old(data))
              case Got(m, rest) => r == Got(m, rest) && data == rest
              case failure => r == failure
    {
      FourBytes();
      var tag := ReadPod(4);
      if tag.None? {
        return EndOfStream;
      }
      if tag.value > 5 {
        return UnknownType(tag.value);
      }
      var id := ReadPod(4);
      if id.None? {
        return EndOfStream;
      }
      if tag.value <= 1 {
        var s := ReadString();
        if !s.Got? {
          return Failure(s);
        }
        return Got(if tag.value == 0 then AddDrawable(id.value, s.value) else AddAudible(id.value, s.value), data);
      } else if tag.value <= 3 {
        var m := Read(64);
        if m.None? {
          return EndOfStream;
        }
        return Got(if tag.value == 2 then TransDrawable(id.value, m.value) else TransAudible(id.value, m.value), data);
      } else {
        return Got(if tag.value == 4 then DelDrawable(id.value) else DelAudible(id.value), data);
      }
    }

    method WriteServerMsg(m: ServerMsg)
      modifies this
      ensures data == old(data) + EncodeServer(m)
    {
      WritePod(ServerTag(m), 4);
      match m {
        case Shutdown => assert data == data + [];
        case Input(state) => WritePod(state, 2);
        case LoadPlayer(templ) => WriteString(templ);
      }
      Framed(old(data), Pod(ServerTag(m), 4), ServerBody(m));
    }

    method ReadServerMsg() returns (r: Received<ServerMsg>)
      modifies this
      ensures match DecodeServer(old(data))
              case Got(m, rest) => r == Got(m, rest) && data == rest
              case failure => r == failure
    {
      FourBytes();
      var tag := ReadPod(4);
      if tag.None? {
        return EndOfStream;
      }
      match tag.value {
        case 0 =>
          return Got(Shutdown, data);
        case 1 =>
          var state := ReadPod(2);
          if state.None? {
            return EndOfStream;
          }
          return Got(Input(state.value), data);
        case 2 =>
          var templ := ReadString();
          if !templ.Got? {
            return Failure(templ);
          }
          return Got(LoadPlayer(templ.value), data);
        case _ =>
          return UnknownType(tag.value);
      }
    }

    /** The receiving loop of a client: every message goes to the client until one cannot be read. */
    method ReceiveClientMsgs() returns (msgs: seq<ClientMsg>)
      modifies this
      ensures msgs == DecodeClients(old(data), []).msgs
    {
      msgs := [];
      while true
        invariant DecodeClients(data, msgs) == DecodeClients(old(data), [])
        decreases |data|
      {
        ClientProgress(data);
        var r := ReadClientMsg();
        if !r.Got? {
          return;
        }
        msgs := msgs + [r.value];
      }
    }
  }
}
