/** The message reader and writer of peer-msgs.c in the form the program runs them: fields
    updated read by read, and the loop of peer-io.c around them. */
module PeerMsgsModule {
  import opened Geometry
  import opened WireMessages
  import opened WireReader

  class PeerMsgs {
    const cfg: Config
    var phase: Phase
    var length: u32
    var id: byte
    var blockReq: Request
    var block: seq<byte>
    var inbuf: seq<byte>
    var outMessages: seq<byte>
    /** the calls made to the rest of the program, in order */
    var published: seq<Event>
    var pieceBytes: nat

    constructor (cfg: Config)
      ensures this.cfg == cfg && Snapshot(false) == CONNECTED && outMessages == []
    {
      this.cfg := cfg;
      phase, length, id, blockReq, block := AwaitingLength, 0, 0, NO_REQUEST, [];
      inbuf, outMessages, published, pieceBytes := [], [], [], 0;
    }

    function Incoming(): Reader
      reads this
    {
      Reader(phase, length, id, blockReq, block)
    }

    function Snapshot(failed: bool): Conn
      reads this
    {
      Conn(Incoming(), inbuf, published, pieceBytes, failed)
    }

    /** One call took exactly the step `s` of the functional reader. */
    twostate predicate Took(s: Step, ret: Ret)
      reads this
    {
      ret == s.ret && Snapshot(ret == Err) == Advance(old(Snapshot(false)), s)
    }

    // ----- reading from the buffer -----

    method ReadUint32() returns (n: u32)
      requires 4 <= |inbuf|
      modifies this`inbuf
      ensures n == ReadU32(old(inbuf)) && inbuf == old(inbuf)[4..]
    {
      n := ReadU32(inbuf);
      inbuf := inbuf[4..];
    }

    method ReadPeerRequest() returns (r: Request)
      requires 12 <= |inbuf|
      modifies this`inbuf
      ensures r == ReadRequest(old(inbuf)) && inbuf == old(inbuf)[12..]
    {
      hide ReadU32;
      var index := ReadUint32();
      var offset := ReadUint32();
      var len := ReadUint32();
      assert old(inbuf)[4..][4..] == old(inbuf)[8..];
      r := Request(index, offset, len);
    }

    method Publish(e: Event)
      modifies this`published
      ensures published == old(published) + [e]
    {
      published := published + [e];
    }

    /** The messages of the fast extension are errors from a peer without it. */
    method PublishFast(m: Message) returns (ok: bool)
      modifies this`published
      ensures published == old(published) + [FastOnly(cfg, m)] && ok == cfg.fext
    {
      ok := cfg.fext;
      if ok { Publish(Got(m)); } else { Publish(Failed(EMSGSIZE)); }
    }

    // ----- the four states -----

    method ReadBtLength(inlen: nat) returns (ret: Ret)
      requires inlen == |inbuf|
      modifies `phase, `length, `id, `blockReq, `block, `inbuf, `published, `pieceBytes
      ensures Took(ReadLength(old(Incoming()), old(inbuf)), ret)
    {
      hide ReadU32;
      if inlen < 4 {
        assert published + [] == published;
        return Later;
      }
      var len := ReadUint32();
      if len == 0 {
        Publish(Got(KeepAlive));
      } else {
        length := len;
        phase := AwaitingId;
        assert published + [] == published;
      }
      return Now;
    }

    method ReadBtMessage(inlen: nat) returns (ret: Ret)
      requires cfg.Valid() && inlen == |inbuf| && 1 <= length && id != BT_PIECE
      modifies `phase, `length, `id, `blockReq, `block, `inbuf, `published, `pieceBytes
      ensures Took(ReadMessage(cfg, old(Incoming()), old(inbuf)), ret)
    {
      hide ReadU32, ReadU16, ReadRequest;
      var msglen := length - 1;
      if inlen < msglen {
        assert published + [] == published;
        return Later;
      }
      if !MessageLengthIsCorrect(cfg, id, msglen + 1) {
        Publish(Failed(EMSGSIZE));
        return Err;
      }
      var ok := Dispatch(msglen);
      if !ok { return Err; }
      phase := AwaitingLength;
      return Now;
    }

    /** The switch of readBtMessage: consumes the payload and reports it. */
    method Dispatch(msglen: nat) returns (ok: bool)
      requires cfg.Valid() && msglen <= |inbuf| && msglen + 1 < U32_MOD && id != BT_PIECE
      requires MessageLengthIsCorrect(cfg, id, msglen + 1)
      modifies this`inbuf, this`published
      ensures inbuf == old(inbuf)[msglen..]
      ensures published == old(published) + [Interpret(cfg, id, old(inbuf)[..msglen])]
      ensures ok == Interpret(cfg, id, old(inbuf)[..msglen]).Got?
    {
      hide ReadU16;
      ghost var payload := inbuf[..msglen];
      ok := true;
      if id == BT_CHOKE {
        Publish(Got(Choke));
      } else if id == BT_UNCHOKE {
        Publish(Got(Unchoke));
      } else if id == BT_INTERESTED {
        Publish(Got(Interested));
      } else if id == BT_NOT_INTERESTED {
        Publish(Got(NotInterested));
      } else if id == BT_HAVE {
        var piece := ReadUint32();
        if cfg.hasMetadata && cfg.tor.PieceCount() <= piece {
          Publish(Failed(ERANGE));
          ok := false;
        } else {
          Publish(Got(Have(piece)));
        }
      } else if id == BT_BITFIELD {
        Publish(Got(Bitfield(inbuf[..msglen])));
        inbuf := inbuf[msglen..];
      } else if id == BT_REQUEST {
        var r := ReadPeerRequest();
        assert r == ReadRequest(payload);
        Publish(Got(Ask(r)));
      } else if id == BT_CANCEL {
        var r := ReadPeerRequest();
        assert r == ReadRequest(payload);
        Publish(Got(Cancel(r)));
      } else if id == BT_PORT {
        Publish(Got(Port(ReadU16(inbuf[..msglen]))));
        inbuf := inbuf[msglen..];
      } else if id == BT_FEXT_SUGGEST {
        var piece := ReadUint32();
        ok := PublishFast(Suggest(piece));
      } else if id == BT_FEXT_ALLOWED_FAST {
        var piece := ReadUint32();
        ok := PublishFast(AllowedFast(piece));
      } else if id == BT_FEXT_HAVE_ALL {
        ok := PublishFast(HaveAll);
      } else if id == BT_FEXT_HAVE_NONE {
        ok := PublishFast(HaveNone);
      } else if id == BT_FEXT_REJECT {
        var r := ReadPeerRequest();
        assert r == ReadRequest(payload);
        ok := PublishFast(Reject(r));
      } else {
        Publish(Got(Ltep(inbuf[..msglen])));
        inbuf := inbuf[msglen..];
      }
    }

    method ReadBtId(inlen: nat) returns (ret: Ret)
      requires cfg.Valid() && inlen == |inbuf| && 1 <= length
      modifies `phase, `length, `id, `blockReq, `block, `inbuf, `published, `pieceBytes
      ensures Took(ReadId(cfg, old(Incoming()), old(inbuf)), ret)
    {
      hide Interpret, MessageLengthIsCorrect;
      if inlen < 1 {
        assert published + [] == published;
        return Later;
      }
      id := inbuf[0];
      inbuf := inbuf[1..];
      if id == BT_PIECE {
        phase := AwaitingPiece;
        assert published + [] == published;
        return Now;
      } else if length != 1 {
        phase := AwaitingMessage;
        assert published + [] == published;
        return Now;
      } else {
        ret := ReadBtMessage(inlen - 1);
      }
    }

    method ReadBtPiece(inlen: nat) returns (ret: Ret)
      requires cfg.Valid() && inlen == |inbuf| && (0 < blockReq.length ==> |block| < blockReq.length)
      modifies `phase, `length, `id, `blockReq, `block, `inbuf, `published, `pieceBytes
      ensures Took(ReadPiece(cfg, old(Incoming()), old(inbuf)), ret)
    {
      hide ReadU32, CheckBlock;
      if blockReq.length == 0 {
        if inlen < 8 {
          assert published + [] == published;
          return Later;
        }
        var index := ReadUint32();
        var offset := ReadUint32();
        blockReq := Request(index, offset, (length - 9) % U32_MOD);
        assert published + [] == published;
        return Now;
      } else {
        var nLeft := blockReq.length - |block|;
        var n := if nLeft < inlen then nLeft else inlen;
        block := block + inbuf[..n];
        inbuf := inbuf[n..];
        pieceBytes := pieceBytes + n;
        if |block| < blockReq.length {
          assert published + [] == published;
          return Later;
        }
        var event := CheckBlock(cfg, blockReq, block);
        Publish(event);
        block := [];
        blockReq := blockReq.(length := 0);
        phase := AwaitingLength;
        return if event.Failed? then Err else Now;
      }
    }

    method TakeStep() returns (ret: Ret)
      requires cfg.Valid() && Inv(Incoming())
      modifies `phase, `length, `id, `blockReq, `block, `inbuf, `published, `pieceBytes
      ensures Took(CanRead(cfg, old(Incoming()), old(inbuf)), ret)
    {
      hide ReadLength, ReadId, ReadMessage, ReadPiece;
      var inlen := |inbuf|;
      if inlen == 0 {
        assert published + [] == published;
        return Later;
      }
      match phase
      case AwaitingPiece => ret := ReadBtPiece(inlen);
      case AwaitingLength => ret := ReadBtLength(inlen);
      case AwaitingId => ret := ReadBtId(inlen);
      case AwaitingMessage => ret := ReadBtMessage(inlen);
    }

    // ----- peer-io.c -----

    /** canReadWrapper, on the bytes that have just arrived. */
    method CanReadWrapper(chunk: seq<byte>) returns (err: bool)
      requires cfg.Valid() && Inv(Incoming())
      modifies `phase, `length, `id, `blockReq, `block, `inbuf, `published, `pieceBytes
      ensures Snapshot(err) == Arrive(cfg, old(Snapshot(false)), chunk)
      ensures !err ==> Inv(Incoming())
      ensures outMessages == old(outMessages)
    {
      hide CanRead, Inv;
      inbuf := inbuf + chunk;
      ghost var goal := Drain(cfg, Snapshot(false));
      var done := false;
      err := false;
      while !done && !err
        invariant done || err ==> Snapshot(err) == goal
        invariant !done && !err ==> Inv(Incoming()) && Drain(cfg, Snapshot(false)) == goal
        invariant !err ==> Inv(Incoming())
        invariant outMessages == old(outMessages)
        decreases !done && !err, |inbuf|
      {
        StepKeepsInv(cfg, Incoming(), inbuf);
        ghost var s := CanRead(cfg, Incoming(), inbuf);
        var ret := TakeStep();
        match ret
        case Now => done := inbuf == [];
        case Later => done := true;
        case Err => err := true;
      }
    }

    // ----- the encoders -----

    method AddUint32(n: u32)
      modifies this`outMessages
      ensures outMessages == old(outMessages) + U32(n)
    {
      outMessages := outMessages + U32(n);
    }

    method AddUint8(n: byte)
      modifies this`outMessages
      ensures outMessages == old(outMessages) + [n]
    {
      outMessages := outMessages + [n];
    }

    /** The body shared by protocolSendRequest, protocolSendCancel and protocolSendReject. */
    method AddRequest(bt: byte, req: Request)
      modifies this`outMessages
      ensures outMessages == old(outMessages) + (U32(13) + [bt] + Bytes3(req))
    {
      hide U32;
      AddUint32(13);
      AddUint8(bt);
      AddUint32(req.index);
      AddUint32(req.offset);
      AddUint32(req.length);
    }

    method SendReject(req: Request)
      requires cfg.fext
      modifies this`outMessages
      ensures outMessages == old(outMessages) + Encode(Reject(req))
    {
      hide U32;
      AddRequest(BT_FEXT_REJECT, req);
    }

    method SendRequest(req: Request)
      modifies this`outMessages
      ensures outMessages == old(outMessages) + Encode(Ask(req))
    {
      hide U32;
      AddRequest(BT_REQUEST, req);
    }

    method SendCancel(req: Request)
      modifies this`outMessages
      ensures outMessages == old(outMessages) + Encode(Cancel(req))
    {
      hide U32;
      AddRequest(BT_CANCEL, req);
    }

    method SendPort(port: u16)
      modifies this`outMessages
      ensures outMessages == old(outMessages) + Encode(Port(port))
    {
      hide U32, U16;
      AddUint32(3);
      AddUint8(BT_PORT);
      outMessages := outMessages + U16(port);
    }

    method SendHave(index: u32)
      modifies this`outMessages
      ensures outMessages == old(outMessages) + Encode(Have(index))
    {
      hide U32;
      AddUint32(5);
      AddUint8(BT_HAVE);
      AddUint32(index);
    }

    method SendChoke(choke: bool)
      modifies this`outMessages
      ensures outMessages == old(outMessages) + Encode(if choke then Choke else Unchoke)
    {
      hide U32;
      AddUint32(1);
      AddUint8(if choke then BT_CHOKE else BT_UNCHOKE);
    }

    method SendHaveAll()
      requires cfg.fext
      modifies this`outMessages
      ensures outMessages == old(outMessages) + Encode(HaveAll)
    {
      hide U32;
      AddUint32(1);
      AddUint8(BT_FEXT_HAVE_ALL);
    }

    method SendHaveNone()
      requires cfg.fext
      modifies this`outMessages
      ensures outMessages == old(outMessages) + Encode(HaveNone)
    {
      hide U32;
      AddUint32(1);
      AddUint8(BT_FEXT_HAVE_NONE);
    }
  }
}
