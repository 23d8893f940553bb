/** Resumable upload: chunks go to a temporary file named after the upload, which is checked
    against a digest and renamed over the target.  A digest is represented by the hashed bytes. */
module Resume {
  import opened Bytes
  import opened Network
  import opened Wrappers

  const TRANSFER_CHUNK_SIZE: nat := 1048576

  datatype Request =
    | Start
    | GetOffset
    | Chunk(offset: nat, data: File)
    | Finish(digest: File)

  datatype Response = Accepted | FileOffset(offset: nat) | Error

  datatype UploadResult = Uploaded | ServerError | Broken | Died

  /** One attempt at a request: its fate, and how many bytes of a chunk reach the disk. */
  datatype Events = Events(fate: Fate, written: nat)

  /** What a request asks of the upload it belongs to: chunks are pieces of the local file at or
      before the end of what has arrived, and the digest is that of the whole file, sent when all
      has arrived. */
  predicate Proper(req: Request, local: File, temp: Option<File>, target: Option<File>) {
    match req
    case Start => true
    case GetOffset => true
    case Chunk(o, data) => temp.Some? && o <= |temp.value| && o + |data| <= |local| && data == local[o..o + |data|]
    case Finish(digest) => digest == local && (temp == Some(local) || (temp == None && target == Some(local)))
  }

  /** What a response tells: a chunk is refused exactly when the disk did not take all of it, a
      finish exactly when it comes again. */
  predicate Answers(req: Request, r: Response, short: bool, again: bool, local: File, temp: Option<File>,
      target: Option<File>) {
    match req
    case Start => r == Accepted && temp.Some?
    case GetOffset => r == FileOffset(if temp.Some? then |temp.value| else 0)
    case Chunk(o, data) => r == (if short then Error else Accepted) && temp.Some? &&
      (short || o + |data| <= |temp.value|)
    case Finish(_) => target == Some(local) && r == if again then Error else Accepted
  }

  /** Does no attempt at request n bring a reply? */
  ghost predicate Silent(net: (nat, nat) -> Events, n: nat, retries: nat) {
    Unanswered(net, n, retries + 1)
  }

  predicate Unanswered(net: (nat, nat) -> Events, n: nat, k: nat) {
    forall j: nat :: j < k ==> net(n, j).fate != Answered
  }

  /** Is request n handled by an attempt before the one that is answered? */
  ghost predicate AnswerLost(net: (nat, nat) -> Events, n: nat) {
    exists k: nat :: net(n, k).fate == ReplyLost && Unanswered(net, n, k)
  }

  /** Does the disk not take all of a chunk in the attempt at request n that is answered? */
  ghost predicate CutShort(net: (nat, nat) -> Events, n: nat, size: nat) {
    exists k: nat :: net(n, k).fate == Answered && Unanswered(net, n, k) && net(n, k).written < size
  }

  /** What the client reads from its file at a time. */
  function Piece(wanted: nat, left: nat): (n: nat)
    requires left > 0
    ensures 0 < n <= left && n <= TRANSFER_CHUNK_SIZE
  {
    Max(1, Min(wanted, Min(TRANSFER_CHUNK_SIZE, left)))
  }

  /** How an upload goes on with request n when the first `offset` bytes have arrived. */
  ghost function Outcome(len: nat, offset: nat, retries: nat, net: (nat, nat) -> Events, dies: nat -> bool,
      pieces: nat -> nat, n: nat): UploadResult
    decreases len - offset
  {
    if offset >= len then
      if Silent(net, n, retries) then Broken else if AnswerLost(net, n) then ServerError else Uploaded
    else if dies(n) then
      Died
    else if Silent(net, n, retries) then
      Broken
    else
      var size := Piece(pieces(n), len - offset);
      if CutShort(net, n, size) then ServerError else Outcome(len, offset + size, retries, net, dies, pieces, n + 1)
  }

  /** How an upload ends of which the first `offset` bytes have arrived before. */
  ghost function Ending(len: nat, offset: nat, retries: nat, net: (nat, nat) -> Events, dies: nat -> bool,
      pieces: nat -> nat): UploadResult
  {
    if Silent(net, 0, retries) || Silent(net, 1, retries) then Broken
    else Outcome(len, offset, retries, net, dies, pieces, 2)
  }

  /** The number of the request that finishes the upload. */
  function FinishAt(len: nat, offset: nat, pieces: nat -> nat, n: nat): nat
    decreases len - offset
  {
    if offset >= len then n else FinishAt(len, offset + Piece(pieces(n), len - offset), pieces, n + 1)
  }

  /** Is every request answered by some attempt, do the disks take every chunk, and does the client
      live? */
  ghost predicate Undisturbed(net: (nat, nat) -> Events, dies: nat -> bool, retries: nat) {
    forall n: nat :: !Silent(net, n, retries) && !CutShort(net, n, TRANSFER_CHUNK_SIZE) && !dies(n)
  }

  /** An undisturbed upload ends in success if and only if the first attempt at the finishing
      request that arrives is also answered; otherwise in an error of the server. */
  lemma {:induction false} UndisturbedOutcome(len: nat, offset: nat, retries: nat, net: (nat, nat) -> Events,
      dies: nat -> bool, pieces: nat -> nat, n: nat)
    requires Undisturbed(net, dies, retries)
    ensures Outcome(len, offset, retries, net, dies, pieces, n)
      == if AnswerLost(net, FinishAt(len, offset, pieces, n)) then ServerError else Uploaded
    decreases len - offset
  {
    assert !Silent(net, n, retries) && !CutShort(net, n, TRANSFER_CHUNK_SIZE) && !dies(n);
    NextRequest(len, offset, retries, net, dies, pieces, n);
    hide Undisturbed, Silent, CutShort, AnswerLost, Outcome;
    if offset < len {
      var size := Piece(pieces(n), len - offset);
      if CutShort(net, n, size) {
        CutShortAny(net, n, size);
      }
      UndisturbedOutcome(len, offset + size, retries, net, dies, pieces, n + 1);
    }
  }

  class Server {
    /** The temporary file of this upload, and the file it is for. */
    var temp: Option<File>
    var target: Option<File>

    /** The temporary file holds a prefix of the local file; the target is the old one or the
        complete new one. */
    ghost predicate Valid(local: File, before: Option<File>)
      reads this
    {
      && (temp.Some? ==> temp.value <= local)
      && (target == before || target == Some(local))
    }

    constructor (target: Option<File>)
      ensures this.target == target && temp == None
    {
      this.target, temp := target, None;
    }

    /** The upload arms of the request handler; the disk takes `written` bytes of a chunk.  The
        target is replaced by nothing but contents that match the digest. */
    method Handle(req: Request, written: nat) returns (r: Response)
      modifies this
      ensures req.Start? ==>
        r == Accepted && target == old(target) && temp == Some(if old(temp).Some? then old(temp).value else [])
      ensures req.GetOffset? ==>
        temp == old(temp) && target == old(target) && r == FileOffset(if temp.Some? then |temp.value| else 0)
      ensures req.Chunk? ==> target == old(target)
      ensures req.Chunk? ==> r == if old(temp).Some? && |req.data| <= written then Accepted else Error
      ensures req.Chunk? ==>
        temp == if old(temp).Some? then
        Some(WriteAt(old(temp).value, req.offset, req.data[..Min(written, |req.data|)])) else None
      ensures req.Finish? ==> r == if old(temp) == Some(req.digest) then Accepted else Error
      ensures req.Finish? ==> temp == None && target == if old(temp) == Some(req.digest) then old(temp) else old(target)
    {
      match req
      case Start =>
        if temp == None {
          temp := Some([]);
        }
        return Accepted;
      case GetOffset =>
        return FileOffset(if temp.Some? then |temp.value| else 0);
      case Chunk(offset, data) =>
        if temp == None {
          return Error;
        }
        temp := Some(WriteAt(temp.value, offset, data[..Min(written, |data|)]));
        return if written < |data| then Error else Accepted;
      case Finish(digest) =>
        if temp == None {
          return Error;
        }
        if temp.value != digest {
          temp := None;
          return Error;
        }
        target, temp := temp, None;
        return Accepted;
    }

    /** What a proper request does to the upload, once. */
    method HandleProper(req: Request, written: nat, ghost local: File, ghost before: Option<File>) returns (r: Response)
      requires Valid(local, before) && Proper(req, local, temp, target)
      modifies this
      ensures Valid(local, before) && Proper(req, local, temp, target)
      ensures !req.Finish? ==>
        target == old(target) && (old(temp).Some? ==> temp.Some? && old(temp).value <= temp.value)
      ensures req.Start? || req.GetOffset? ==>
        temp == old(temp) || (req.Start? && old(temp) == None && temp == Some([]))
      ensures req.Finish? ==> temp == None
      ensures Answers(req, r, req.Chunk? && written < |req.data|, old(temp) == None, local, temp, target)
    {
      hide WriteAt;
      ghost var t := temp;
      r := Handle(req, written);
      if req.Chunk? {
        ghost var k := Min(written, |req.data|);
        assert req.data[..k] == local[req.offset..req.offset + k];
        ChunkExtends(local, t.value, req.offset, k);
      }
    }

    /** Request n with its retries: an attempt is lost before or after it is handled, or a chunk is
        cut short with the daemon.  It ends without a reply exactly when no attempt brings one. */
    method Op(req: Request, retries: nat, net: (nat, nat) -> Events, n: nat, ghost local: File,
        ghost before: Option<File>)
      returns (r: Option<Response>)
      requires Valid(local, before) && Proper(req, local, temp, target) && (req.Finish? ==> temp.Some?)
      modifies this
      ensures Valid(local, before)
      ensures r.None? <==> Silent(net, n, retries)
      ensures !req.Finish? ==>
        target == old(target) && (old(temp).Some? ==> temp.Some? && old(temp).value <= temp.value)
      ensures req.Start? || req.GetOffset? ==>
        temp == old(temp) || (req.Start? && old(temp) == None && temp == Some([]))
      ensures r.Some? ==> Answers(req, r.value, req.Chunk? &&
        CutShort(net, n, |req.data|), AnswerLost(net, n), local, temp, target)
    {
      hide Valid, Proper, Answers, CutShort, AnswerLost, Silent, Unanswered;
      var attempt := 0;
      NothingLost(net, n);
      while true
        invariant Valid(local, before) && Proper(req, local, temp, target)
        invariant attempt <= retries && Unanswered(net, n, attempt)
        invariant !req.Finish? ==>
          target == old(target) && (old(temp).Some? ==> temp.Some? && old(temp).value <= temp.value)
        invariant req.Start? || req.GetOffset? ==>
          temp == old(temp) || (req.Start? && old(temp) == None && temp == Some([]))
        invariant req.Finish? ==> (temp == None <==> LostBefore(net, n, attempt))
        decreases retries - attempt
      {
        var e := net(n, attempt);
        OneLost(net, n, attempt, retries);
        if e.fate != RequestLost {
          ghost var again := temp == None;
          var response := HandleProper(req, e.written, local, before);
          if e.fate == Answered {
            AnsweredNow(req, response, again, net, n, attempt, local, temp, target);
            return Some(response);
          }
        }
        if attempt >= retries {
          return None;
        }
        attempt := attempt + 1;
      }
    }

    /** The upload, from its start or from where an earlier client left it.  The client may die
        before any chunk.  If it returns Ok the complete new content is published; an error of the
        server means that a disk failed, or the same: only a repeated Finish is refused. */
    method UploadFile(local: File, retries: nat, net: (nat, nat) -> Events, dies: nat -> bool, pieces: nat -> nat,
        ghost before: Option<File>)
      returns (r: UploadResult)
      requires Valid(local, before)
      modifies this
      ensures Valid(local, before)
      ensures r == Ending(|local|, if old(temp).Some? then |old(temp).value| else 0, retries, net, dies, pieces)
      ensures r == Uploaded ==> target == Some(local)
      ensures r == ServerError ==> target == Some(local) || exists n: nat :: CutShort(net, n, TRANSFER_CHUNK_SIZE)
    {
      hide Valid, Silent, AnswerLost, CutShort, Outcome;
      var response := Op(Start, retries, net, 0, local, before);
      if response == None {
        return Broken;
      }
      response := Op(GetOffset, retries, net, 1, local, before);
      if response == None {
        return Broken;
      }
      var offset := Min(response.value.offset, |local|);
      NoneBeyond(local, before);
      var n: nat := 2;
      ghost var whole := Outcome(|local|, offset, retries, net, dies, pieces, n);
      while offset < |local|
        invariant Valid(local, before) && temp.Some? && offset <= |temp.value| && offset <= |local|
        invariant whole == Outcome(|local|, offset, retries, net, dies, pieces, n)
        decreases |local| - offset
      {
        NextRequest(|local|, offset, retries, net, dies, pieces, n);
        if dies(n) {
          return Died;
        }
        var read := Piece(pieces(n), |local| - offset);
        response := Op(Chunk(offset, local[offset..offset + read]), retries, net, n, local, before);
        if response == None {
          return Broken;
        }
        if response.value == Error {
          CutShortAny(net, n, read);
          return ServerError;
        }
        offset := offset + read;
        n := n + 1;
      }
      AllArrived(local, before);
      NextRequest(|local|, offset, retries, net, dies, pieces, n);
      response := Op(Finish(local), retries, net, n, local, before);
      if response == None {
        return Broken;
      }
      return if response.value == Accepted then Uploaded else ServerError;
    }

    lemma NoneBeyond(local: File, before: Option<File>)
      requires Valid(local, before)
      ensures temp.Some? ==> |temp.value| <= |local|
    {
    }

    lemma AllArrived(local: File, before: Option<File>)
      requires Valid(local, before) && temp.Some? && |local| <= |temp.value|
      ensures temp.value == local
    {
    }
  }

  /** Clients come and go; each takes up the upload where it finds it, and one that is left
      undisturbed gets the new content published. */
  method UploadByMany(server: Server, local: File, retries: nat, clients: nat,
                      net: nat -> (nat, nat) -> Events, dies: nat -> nat -> bool, pieces: nat -> nat -> nat,
                        ghost before: Option<File>)
    returns (results: seq<UploadResult>, ghost offsets: seq<nat>)
    requires server.Valid(local, before)
    modifies server
    ensures server.Valid(local, before)
    ensures |results| == |offsets| == clients
    ensures forall i: nat :: i < clients ==>
      results[i] == Ending(|local|, offsets[i], retries, net(i), dies(i), pieces(i))
    ensures Uploaded in results ==> server.target == Some(local)
    ensures (exists i: nat :: i < clients && Undisturbed(net(i), dies(i), retries)) ==> server.target == Some(local)
  {
    hide Undisturbed, Outcome, Silent, CutShort;
    results, offsets := [], [];
    for i := 0 to clients
      invariant server.Valid(local, before)
      invariant |results| == |offsets| == i
      invariant forall j: nat :: j < i ==>
        results[j] == Ending(|local|, offsets[j], retries, net(j), dies(j), pieces(j))
      invariant Uploaded in results ==> server.target == Some(local)
      invariant (exists j: nat :: j < i && Undisturbed(net(j), dies(j), retries)) ==> server.target == Some(local)
    {
      ghost var arrived := server.temp;
      var r := server.UploadFile(local, retries, net(i), dies(i), pieces(i), server.target);
      results := results + [r];
      offsets := offsets + [if arrived.Some? then |arrived.value| else 0];
      if Undisturbed(net(i), dies(i), retries) {
        UndisturbedEnds(|local|, if arrived.Some? then |arrived.value| else 0, retries, net(i), dies(i), pieces(i));
      }
    }
  }

  lemma UndisturbedEnds(len: nat, offset: nat, retries: nat, net: (nat, nat) -> Events, dies: nat -> bool,
      pieces: nat -> nat)
    requires Undisturbed(net, dies, retries)
    ensures !Silent(net, 0, retries) && !Silent(net, 1, retries)
    ensures var r := Outcome(len, offset, retries, net, dies, pieces, 2); r == Uploaded || r == ServerError
    ensures forall n: nat :: !CutShort(net, n, TRANSFER_CHUNK_SIZE)
  {
    UndisturbedOutcome(len, offset, retries, net, dies, pieces, 2);
    hide Silent, CutShort, Outcome;
    assert !Silent(net, 0, retries) && !Silent(net, 1, retries);
  }

  // ------------------------------------------------------------------ replies that are lost

  ghost predicate LostBefore(net: (nat, nat) -> Events, n: nat, attempt: nat) {
    exists k: nat :: k < attempt && net(n, k).fate == ReplyLost && Unanswered(net, n, k)
  }

  lemma NothingLost(net: (nat, nat) -> Events, n: nat)
    ensures Unanswered(net, n, 0) && !LostBefore(net, n, 0)
  {
  }

  lemma OneLost(net: (nat, nat) -> Events, n: nat, attempt: nat, retries: nat)
    requires Unanswered(net, n, attempt) && attempt <= retries
    ensures net(n, attempt).fate == Answered ==> !Silent(net, n, retries)
    ensures net(n, attempt).fate != Answered ==> Unanswered(net, n, attempt + 1)
    ensures net(n, attempt).fate != Answered && attempt == retries ==> Silent(net, n, retries)
    ensures LostBefore(net, n, attempt + 1) <==> LostBefore(net, n, attempt) || net(n, attempt).fate == ReplyLost
  {
  }

  /** The reply to the answered attempt tells whether an earlier one arrived. */
  lemma AnsweredNow(req: Request, r: Response, again: bool, net: (nat, nat) -> Events, n: nat, attempt: nat,
      local: File, temp: Option<File>, target: Option<File>)
    requires net(n, attempt).fate == Answered && Unanswered(net, n, attempt)
    requires Answers(req, r, req.Chunk? && net(n, attempt).written < |req.data|, again, local, temp, target)
    requires req.Finish? ==> (again <==> LostBefore(net, n, attempt))
    ensures Answers(req, r, req.Chunk? && CutShort(net, n, |req.data|), AnswerLost(net, n), local, temp, target)
  {
    assert forall k: nat :: Unanswered(net, n, k) ==> k <= attempt;
    assert AnswerLost(net, n) <==> LostBefore(net, n, attempt);
    if req.Chunk? {
      assert CutShort(net, n, |req.data|) <==> net(n, attempt).written < |req.data|;
    }
  }

  lemma NextRequest(len: nat, offset: nat, retries: nat, net: (nat, nat) -> Events, dies: nat -> bool,
      pieces: nat -> nat, n: nat)
    ensures Outcome(len, offset, retries, net, dies, pieces, n) ==
      if offset >= len then
        (if Silent(net, n, retries) then Broken else if AnswerLost(net, n) then ServerError else Uploaded)
      else if dies(n) then
        Died
      else if Silent(net, n, retries) then
        Broken
      else if CutShort(net, n, Piece(pieces(n), len - offset)) then
        ServerError
      else
        Outcome(len, offset + Piece(pieces(n), len - offset), retries, net, dies, pieces, n + 1)
  {
  }

  lemma CutShortAny(net: (nat, nat) -> Events, n: nat, size: nat)
    requires CutShort(net, n, size) && size <= TRANSFER_CHUNK_SIZE
    ensures CutShort(net, n, TRANSFER_CHUNK_SIZE)
  {
  }

  /** An upload that is undisturbed but for the first reply to its finishing request: the new
      content is published, and the client is told of an error. */
  method FinishReplyLost(local: File, retries: nat) returns (server: Server, r: UploadResult)
    requires local != [] && |local| <= TRANSFER_CHUNK_SIZE && retries > 0
    ensures r == ServerError && server.target == Some(local)
  {
    server := new Server(None);
    var net: (nat, nat) -> Events :=
      (n, k) => Events(if n == 3 && k == 0 then ReplyLost else Answered, TRANSFER_CHUNK_SIZE);
    var lives: nat -> bool := n => false;
    var whole: nat -> nat := n => |local|;
    UndisturbedButOne(net, lives, retries);
    UndisturbedOutcome(|local|, 0, retries, net, lives, whole, 2);
    assert FinishAt(|local|, 0, whole, 2) == 3;
    r := server.UploadFile(local, retries, net, lives, whole, None);
  }

  lemma UndisturbedButOne(net: (nat, nat) -> Events, dies: nat -> bool, retries: nat)
    requires retries > 0 && forall n: nat, k: nat ::
      net(n, k) == Events(if n == 3 && k == 0 then ReplyLost else Answered, TRANSFER_CHUNK_SIZE)
    requires forall n: nat :: !dies(n)
    ensures Undisturbed(net, dies, retries) && AnswerLost(net, 3)
  {
    forall n: nat
      ensures !Silent(net, n, retries)
    {
      assert net(n, 1).fate == Answered;
    }
    assert net(3, 0).fate == ReplyLost && Unanswered(net, 3, 0);
  }

  /** Writing a piece of the file where it belongs keeps a prefix a prefix. */
  lemma ChunkExtends(local: File, temp: File, offset: nat, k: nat)
    requires temp <= local && offset <= |temp| && offset + k <= |local|
    ensures var t := WriteAt(temp, offset, local[offset..offset + k]);
      t <= local && temp <= t && |t| == Max(|temp|, offset + k)
  {
  }
}
