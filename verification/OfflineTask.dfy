// OfflineTransferTask: a file is uploaded to disk segment by segment and later
// downloaded segment by segment.
module OfflineTask {
  import opened Bytes
  import opened OfflineFile
  import opened TransferTypes

  // A FILE pointer: none, appending, or reading at a position.
  datatype Handle = Null | Append | ReadAt(pos: nat)

  /** The one file a task id names. Whether it can be ok is up to the
      operating system. */
  class DiskFile {
    var present: bool
    var bytes: seq<byte>
    var openable: bool

    constructor (openable: bool)
      ensures !present && bytes == [] && this.openable == openable
    {
      present, bytes, this.openable := false, [], openable;
    }
  }

  /** CheckByUserIDAndFileRole. */
  predicate MayJoin(info: TaskInfo, userId: uint32, role: Role) {
    match role
    case OfflineUpload => userId == info.fromUser
    case OfflineDownload => userId == info.toUser
    case _ => false
  }

  /** The state that a permitted join leads to. */
  function Joined(state: State, role: Role): State {
    if state.Ready? && role.OfflineUpload? then WaitingUpload
    else if (state.UploadEnd? || state.WaitingDownload?) && role.OfflineDownload? then WaitingDownload
    else state
  }

  /** A join is answered with true and changes the state exactly if it is the
      sender's upload to a ready task or the receiver's download from an uploaded one. */
  lemma JoinTakesEffect(info: TaskInfo, state: State, userId: uint32, role: Role)
    ensures MayJoin(info, userId, role) && Joined(state, role) != state
       <==> || (state.Ready? && role.OfflineUpload? && userId == info.fromUser)
            || (state.UploadEnd? && role.OfflineDownload? && userId == info.toUser)
  {
  }

  /** The receiver who asks before anything was uploaded is told yes, and the task
      stays as it is. */
  lemma EarlyDownloadIsAnsweredTrue(info: TaskInfo)
    ensures MayJoin(info, info.toUser, OfflineDownload) && Joined(Ready, OfflineDownload) == Ready
  {
  }

  class Task {
    const info: TaskInfo
    const disk: DiskFile
    const segments: nat
    var state: State
    var idx: nat
    var fp: Handle
    // All data accepted by DoRecvData, and all data given out since the
    // download began.
    ghost var uploaded: seq<byte>
    ghost var pulled: seq<byte>
    ghost var createTime: nat

    ghost predicate Valid()
      reads this, disk
    {
      && ValidInfo(info)
      && segments == Segments(info.size)
      && match state {
         case Ready => NothingStored()
         case WaitingUpload => NothingStored()
         case Uploading => idx < segments && fp == Append && |uploaded| == idx * SEGMENT_SIZE && Stored()
         case UploadEnd => fp == Null && |uploaded| == info.size && Stored()
         case WaitingDownload => |uploaded| == info.size && Stored()
         case Downloading =>
           && |uploaded| == info.size && Stored()
           && idx < segments && fp == ReadAt(HEADER_SIZE + idx * SEGMENT_SIZE) && pulled == Blocks(uploaded, idx)
         case _ => false
         }
    }

    ghost predicate NothingStored()
      reads this, disk
    {
      idx == 0 && fp == Null && uploaded == [] && !disk.present && disk.bytes == []
    }

    /** The file is this task's header and then all that was uploaded. */
    ghost predicate Stored()
      reads this, disk
    {
      disk.present && disk.bytes == HeaderBytes(info, createTime) + uploaded
    }

    constructor (info: TaskInfo, disk: DiskFile)
      requires ValidInfo(info) && !disk.present && disk.bytes == []
      ensures Valid() && state.Ready? && this.info == info && this.disk == disk
    {
      this.info, this.disk, segments := info, disk, Segments(info.size);
      state, idx, fp := Ready, 0, Null;
      uploaded, pulled, createTime := [], [], 0;
    }

    /** A reloaded task, which takes all it knows from the file's header. */
    constructor Load(disk: DiskFile, ghost createTime: nat)
      requires disk.present && Loadable(disk.bytes)
      ensures state.WaitingDownload? && idx == 0 && fp == Null && this.disk == disk
      ensures info == ReadHeader(disk.bytes) && segments == Segments(info.size)
      ensures uploaded == disk.bytes[HEADER_SIZE..] && this.createTime == createTime
    {
      this.info, this.disk := ReadHeader(disk.bytes), disk;
      segments := Segments(ReadHeader(disk.bytes).size);
      state, idx, fp := WaitingDownload, 0, Null;
      uploaded, pulled, this.createTime := disk.bytes[HEADER_SIZE..], [], createTime;
    }

    /** True is no promise that the state changed: it only says that the role
        fits the user. */
    method ChangePullState(userId: uint32, role: Role) returns (rv: bool)
      requires Valid()
      modifies this`state
      ensures Valid()
      ensures rv == MayJoin(info, userId, role)
      ensures state == if rv then Joined(old(state), role) else old(state)
    {
      rv := MayJoin(info, userId, role);
      if !rv {
        return;
      }
      if state != Ready && state != UploadEnd && state != WaitingDownload {
        return;
      }
      if state == Ready {
        if role == OfflineUpload {
          state := WaitingUpload;
        } else {
          return;
        }
      } else {
        if role == OfflineDownload {
          state := WaitingDownload;
        } else {
          return;
        }
      }
      rv := true;
    }

    /** When an upload block is taken. */
    ghost predicate Accepts(userId: uint32, offset: uint32)
      reads this, disk
    {
      && userId == info.fromUser
      && (state.WaitingUpload? || state.Uploading?)
      && offset == idx * SEGMENT_SIZE
      && (state.WaitingUpload? ==> disk.openable)
    }

    /** An upload block. The code takes as many bytes as it expects, not as it was
        sent: `beyond` is the memory that follows `data`. What is stored comes from the
        data alone exactly if that is long enough. */
    method DoRecvData(userId: uint32, offset: uint32, data: seq<byte>, beyond: seq<byte>, now: nat) returns (rv: int)
      requires Valid()
      requires Accepts(userId, offset) ==> |data| + |beyond| >= BlockSize(info.size, idx)
      modifies this`state, this`idx, this`fp, this`uploaded, this`createTime, disk`present, disk`bytes
      ensures Valid()
      ensures !old(Accepts(userId, offset)) ==>
                && rv == -1
                && disk.present == old(disk.present) && disk.bytes == old(disk.bytes) && uploaded == old(uploaded)
                && state == old(state) && idx == old(idx) && fp == old(fp)
      ensures old(Accepts(userId, offset)) ==>
                && 0 <= BlockSize(info.size, old(idx)) <= |data| + |beyond|
                && uploaded == old(uploaded) + (data + beyond)[..BlockSize(info.size, old(idx))]
                && ((data + beyond)[..BlockSize(info.size, old(idx))] <= data <==> BlockSize(info.size, old(idx)) <= |data|)
                && idx == old(idx) + 1
                && rv == (if idx == segments then 1 else 0)
                && state == (if idx == segments then UploadEnd else Uploading)
      ensures old(disk.bytes) <= disk.bytes
    {
      hide HeaderBytes, Segments, BlockSize;
      rv := -1;
      if userId != info.fromUser {
        return;
      }
      if state != WaitingUpload && state != Uploading {
        return;
      }
      if offset != idx * SEGMENT_SIZE {
        return;
      }
      var dataSize := BlockSize(info.size, idx);
      SegmentsPositive(info.size);
      SegmentsTile(info.size, idx);
      if state == WaitingUpload {
        if !disk.openable {
          return;
        }
        disk.present := true;
        fp := Append;
        disk.bytes := disk.bytes + HeaderBytes(info, now);
        createTime := now;
        state := Uploading;
        assert disk.bytes == HeaderBytes(info, now) + [];
      }
      assert Stored();
      var taken := (data + beyond)[..dataSize];
      disk.bytes := disk.bytes + taken;
      uploaded := uploaded + taken;
      assert disk.bytes == HeaderBytes(info, createTime) + uploaded;
      idx := idx + 1;
      if idx == segments {
        state := UploadEnd;
        fp := Null;
        rv := 1;
      } else {
        rv := 0;
      }
    }

    /** Where the next pull stands: a first pull starts from the beginning. */
    function PullIndex(): (at: nat)
      reads this
    {
      if state.Downloading? then idx else 0
    }

    /** When a pull gets as far as its offset check. */
    predicate Opens()
      reads this, disk
    {
      state.Downloading? || (state.WaitingDownload? && disk.openable)
    }

    /** The first pull opens the file, skips the header and starts over. */
    method OpenForPull() returns (ok: bool)
      requires Valid() && state.WaitingDownload?
      modifies this`state, this`idx, this`fp, this`pulled
      ensures Valid() && ok == disk.openable && idx == 0
      ensures if ok then state.Downloading? && pulled == [] else state.WaitingDownload? && pulled == old(pulled)
    {
      hide HeaderBytes, Segments;
      SegmentsPositive(info.size);
      idx := 0;
      fp := Null;
      ok := disk.openable;
      if ok {
        fp := ReadAt(HEADER_SIZE);
        state := Downloading;
        pulled := [];
      }
    }

    /** A pull is served just when its offset is the next one. Nothing checks
        the user here, and the file that is opened is named by the task alone. */
    method DoPullFileRequest(userId: uint32, offset: uint32) returns (rv: int, data: seq<byte>)
      requires Valid()
      modifies this`state, this`idx, this`fp, this`pulled
      ensures Valid()
      ensures rv != -1 <==> old(Opens()) && offset == old(PullIndex()) * SEGMENT_SIZE
      ensures rv == -1 ==> data == [] && state == if old(Opens()) then Downloading else old(state)
      ensures rv == -1 ==> idx == if old(state).WaitingDownload? then 0 else old(idx)
      ensures rv == -1 ==> pulled == if old(Opens()) then Blocks(uploaded, old(PullIndex())) else old(pulled)
      ensures rv != -1 ==>
                && old(PullIndex()) < segments == Segments(|uploaded|)
                && data == Block(uploaded, old(PullIndex()))
                && idx == old(PullIndex()) + 1 <= segments
                && pulled == Blocks(uploaded, idx)
                && rv == (if idx == segments then 1 else 0)
                && state == (if idx == segments then UploadEnd else Downloading)
      ensures rv == 1 ==> pulled == uploaded
    {
      hide HeaderBytes, Segments, BlockSize, Block;
      rv, data := -1, [];
      if state != WaitingDownload && state != Downloading {
        return;
      }
      if state == WaitingDownload {
        var ok := OpenForPull();
        if !ok {
          return;
        }
      }
      if offset != idx * SEGMENT_SIZE {
        return;
      }
      SegmentsTile(info.size, idx);
      var dataSize := BlockSize(info.size, idx);
      data := disk.bytes[fp.pos..fp.pos + dataSize];
      BlockOnDisk(HeaderBytes(info, createTime), uploaded, idx);
      fp := ReadAt(fp.pos + dataSize);
      pulled := pulled + data;
      idx := idx + 1;
      if idx == segments {
        BlocksJoin(uploaded, idx);
        state := UploadEnd;
        fp := Null;
        rv := 1;
      } else {
        rv := 0;
      }
    }

    /** What FileClientConn::Close does to the task. */
    method ConnClosed()
      requires Valid()
      modifies this`state
      ensures Valid() && state == if FromUploadEnd(old(state)) then WaitingDownload else old(state)
    {
      if FromUploadEnd(state) {
        state := WaitingDownload;
      }
    }
  }

  lemma SegmentsPositive(size: nat)
    requires size > 0
    ensures Segments(size) > 0
  {
  }

  lemma BlockOnDisk(header: seq<byte>, body: seq<byte>, idx: nat)
    requires |header| == HEADER_SIZE && idx < Segments(|body|)
    ensures
      var pos := HEADER_SIZE + idx * SEGMENT_SIZE;
      && 0 < BlockSize(|body|, idx) && pos + BlockSize(|body|, idx) <= HEADER_SIZE + |body|
      && (header + body)[pos..pos + BlockSize(|body|, idx)] == Block(body, idx)
  {
    SegmentsTile(|body|, idx);
  }

  // ------------------------------------------------------------- whole runs

  /** The sender answers each request for the next block until told it is done. */
  method Upload(t: Task, content: seq<byte>, now: nat) returns (blocks: nat)
    requires t.Valid() && t.state.WaitingUpload? && t.disk.openable && |content| == t.info.size
    modifies t, t.disk
    ensures t.Valid() && t.state.UploadEnd? && t.uploaded == content
    ensures blocks == t.segments
    ensures t.disk.openable == old(t.disk.openable)
  {
    hide Segments, BlockSize, Block;
    var rv := 0;
    blocks := 0;
    SegmentsPositive(t.info.size);
    while rv == 0
      invariant t.Valid() && t.disk.openable == old(t.disk.openable)
      invariant blocks == t.idx <= t.segments == Segments(|content|)
      invariant rv == 0 ==>
        && t.idx < t.segments && (t.state.WaitingUpload? || t.state.Uploading?) && t.uploaded == Blocks(content, t.idx)
      invariant rv != 0 ==> t.state.UploadEnd? && t.idx == t.segments && t.uploaded == Blocks(content, t.idx)
      decreases t.segments - t.idx, rv == 0
    {
      SegmentsTile(t.info.size, t.idx);
      var offset := t.idx * SEGMENT_SIZE;
      var block := Block(content, t.idx);
      rv := t.DoRecvData(t.info.fromUser, offset, block, [], now);
      assert (block + [])[..|block|] == block;
      blocks := blocks + 1;
    }
    BlocksJoin(content, t.segments);
  }

  /** The receiver asks for the next block until told it has the last. */
  method Download(t: Task) returns (content: seq<byte>, blocks: nat)
    requires t.Valid() && t.state.WaitingDownload? && t.disk.openable
    modifies t
    ensures t.Valid() && t.state.UploadEnd? && t.uploaded == old(t.uploaded)
    ensures content == t.uploaded && blocks == t.segments
  {
    hide Segments, BlockSize, Block;
    var rv := 0;
    content, blocks := [], 0;
    SegmentsPositive(t.info.size);
    while rv == 0
      invariant t.Valid() && t.uploaded == old(t.uploaded)
      invariant rv == 0 ==> t.Opens() && blocks == t.PullIndex() < t.segments
      invariant blocks <= t.segments == Segments(|t.uploaded|) && content == Blocks(t.uploaded, blocks)
      invariant rv != 0 ==> t.state.UploadEnd? && blocks == t.segments
      decreases t.segments - blocks, rv == 0
    {
      SegmentsTile(t.info.size, blocks);
      var block;
      rv, block := t.DoPullFileRequest(t.info.toUser, blocks * SEGMENT_SIZE);
      content := content + block;
      blocks := blocks + 1;
    }
    BlocksJoin(t.uploaded, t.segments);
  }

  /** OfflineTransferTask::LoadFromDisk, on any file. */
  method LoadFromDisk(disk: DiskFile, ghost createTime: nat) returns (t: Task?)
    ensures t != null <==> disk.present && disk.openable && Loadable(disk.bytes)
    ensures t != null ==>
              && fresh(t) && t.state.WaitingDownload? && t.disk == disk && t.createTime == createTime
              && t.info == ReadHeader(disk.bytes) && t.uploaded == disk.bytes[HEADER_SIZE..]
              && t.idx == 0 && t.fp == Null && t.segments == Segments(t.info.size)
  {
    hide HeaderBytes, ReadHeader, Segments;
    if !disk.present || !disk.openable {
      return null;
    }
    if |disk.bytes| < HEADER_SIZE {
      return null;
    }
    if |disk.bytes| - HEADER_SIZE != ReadHeader(disk.bytes).size {
      return null;
    }
    t := new Task.Load(disk, createTime);
  }

  /** On whatever part of an upload has reached the disk: it succeeds just when the
      whole upload has, and then with that upload's task. */
  method LoadUpload(disk: DiskFile, ghost info: TaskInfo, ghost createTime: nat, ghost body: seq<byte>)
    returns (t: Task?)
    requires ValidInfo(info) && |body| == info.size && disk.bytes <= HeaderBytes(info, createTime) + body
    ensures t != null <==> disk.present && disk.openable && disk.bytes == HeaderBytes(info, createTime) + body
    ensures t != null ==>
              && fresh(t) && t.Valid() && t.state.WaitingDownload?
              && t.disk == disk && t.info == info && t.uploaded == body
  {
    hide HeaderBytes, ReadHeader, Segments;
    LoadableOnlyWhole(info, createTime, body, disk.bytes);
    t := LoadFromDisk(disk, createTime);
    assert t != null ==> disk.bytes[HEADER_SIZE..] == body;
  }

  /** Wherever a run stands when the server stops, what is on disk loads again
      exactly if the upload had ended. */
  lemma RestartNeedsWholeUpload(t: Task)
    requires t.Valid() && t.disk.present
    ensures Loadable(t.disk.bytes) <==> FromUploadEnd(t.state)
    ensures Loadable(t.disk.bytes) ==> ReadHeader(t.disk.bytes) == t.info
  {
    hide HeaderBytes, ReadHeader, ValidInfo;
    HeaderIsRead(t.info, t.createTime, t.uploaded);
    if t.state.Uploading? {
      SegmentsTile(t.info.size, t.idx);
    }
  }

  /** Upload, server restart, download: the bytes come back, in exactly
      ceil(size / 32768) blocks each way. */
  method RoundTrip(info: TaskInfo, content: seq<byte>, now: nat) returns (back: seq<byte>, up: nat, down: nat)
    requires ValidInfo(info) && |content| == info.size
    ensures back == content
    ensures up == down && (up - 1) * SEGMENT_SIZE < info.size <= up * SEGMENT_SIZE
  {
    hide HeaderBytes, ReadHeader;
    var disk := new DiskFile(true);
    var sender := new Task(info, disk);
    var joined := sender.ChangePullState(info.fromUser, OfflineUpload);
    up := Upload(sender, content, now);
    sender.ConnClosed();
    var receiver := LoadUpload(disk, info, sender.createTime, content);
    joined := receiver.ChangePullState(info.toUser, OfflineDownload);
    back, down := Download(receiver);
  }

  // Anything that can happen to a task, right or wrong. A push comes with the memory
  // that lies behind its data.
  datatype Call =
    | Join(userId: uint32, role: Role)
    | Push(userId: uint32, offset: uint32, data: seq<byte>, beyond: seq<byte>)
    | Pull(userId: uint32, offset: uint32)
    | Closed
    | SetOpenable(openable: bool)

  // What a run of calls makes of a task, without file and pointers.
  datatype Shadow = Shadow(state: State, idx: nat, stored: seq<byte>, openable: bool)

  /** A push is taken if it is the sender's, at the right time and place. */
  predicate Takes(info: TaskInfo, s: Shadow, userId: uint32, offset: uint32) {
    && userId == info.fromUser && offset == s.idx * SEGMENT_SIZE
    && (s.state.Uploading? || (s.state.WaitingUpload? && s.openable))
  }

  function Pushed(info: TaskInfo, s: Shadow, userId: uint32, offset: uint32, data: seq<byte>): Shadow {
    if !Takes(info, s, userId, offset) then s
    else
      var block := if 0 <= BlockSize(info.size, s.idx) <= |data| then data[..BlockSize(info.size, s.idx)] else data;
      s.(state := if s.idx + 1 == Segments(info.size) then UploadEnd else Uploading,
         idx := s.idx + 1,
         stored := s.stored + block)
  }

  /** A push without any data is taken too: what it stores is the memory behind it. */
  lemma EmptyBlockIsTaken(info: TaskInfo, beyond: seq<byte>)
    requires 0 < info.size && |beyond| >= SEGMENT_SIZE
    ensures
      var n := BlockSize(info.size, 0);
      var s := Called(info, Shadow(WaitingUpload, 0, [], true), Push(info.fromUser, 0, [], beyond));
      0 < n <= |beyond| && s.idx == 1 && s.stored == beyond[..n]
  {
    SegmentsPositive(info.size);
    SegmentsTile(info.size, 0);
    hide Segments, BlockSize;
    assert [] + beyond == beyond;
  }

  /** A first pull starts over, if the file can be opened. */
  function Opened(s: Shadow): Shadow {
    if !s.state.WaitingDownload? then s
    else if s.openable then s.(state := Downloading, idx := 0)
    else s.(idx := 0)
  }

  function Pulled(info: TaskInfo, s: Shadow, offset: uint32): Shadow {
    if !s.state.Downloading? || offset != s.idx * SEGMENT_SIZE then s
    else s.(state := if s.idx + 1 == Segments(info.size) then UploadEnd else Downloading, idx := s.idx + 1)
  }

  function Called(info: TaskInfo, s: Shadow, call: Call): Shadow {
    match call
    case Join(userId, role) => if MayJoin(info, userId, role) then s.(state := Joined(s.state, role)) else s
    case Push(userId, offset, data, beyond) => Pushed(info, s, userId, offset, data + beyond)
    case Pull(_, offset) => Pulled(info, Opened(s), offset)
    case Closed => if FromUploadEnd(s.state) then s.(state := WaitingDownload) else s
    case SetOpenable(openable) => s.(openable := openable)
  }

  function CalledAll(info: TaskInfo, s: Shadow, calls: seq<Call>): Shadow {
    if calls == [] then s else Called(info, CalledAll(info, s, calls[..|calls| - 1]), calls[|calls| - 1])
  }

  /** The code can read as much of a push that is taken as it expects; any other push
      may be anything. */
  predicate Readable(info: TaskInfo, s: Shadow, call: Call) {
    call.Push? && Takes(info, s, call.userId, call.offset) ==>
      |call.data| + |call.beyond| >= BlockSize(info.size, s.idx)
  }

  predicate AllReadable(info: TaskInfo, s: Shadow, calls: seq<Call>) {
    forall i :: 0 <= i < |calls| ==> Readable(info, CalledAll(info, s, calls[..i]), calls[i])
  }

  ghost function ShadowOf(t: Task): Shadow
    reads t, t.disk
  {
    Shadow(t.state, t.idx, t.uploaded, t.disk.openable)
  }

  /** Any run: the task is what the calls make of it, and whatever was stored stays
      a prefix of what is stored. */
  method AnyRun(t: Task, calls: seq<Call>)
    requires t.Valid() && AllReadable(t.info, ShadowOf(t), calls)
    modifies t, t.disk
    ensures t.Valid() && old(t.uploaded) <= t.uploaded && old(t.disk.bytes) <= t.disk.bytes
    ensures ShadowOf(t) == CalledAll(t.info, old(ShadowOf(t)), calls)
  {
    hide HeaderBytes, Segments, BlockSize, Block, Called, Readable;
    assert calls[..0] == [];
    for i := 0 to |calls|
      invariant t.Valid() && old(t.uploaded) <= t.uploaded && old(t.disk.bytes) <= t.disk.bytes
      invariant ShadowOf(t) == CalledAll(t.info, old(ShadowOf(t)), calls[..i])
    {
      assert calls[..i + 1][..i] == calls[..i];
      OneCall(t, calls[i]);
    }
    assert calls[..|calls|] == calls;
  }

  method OneCall(t: Task, call: Call)
    requires t.Valid() && Readable(t.info, ShadowOf(t), call)
    modifies t, t.disk
    ensures t.Valid() && old(t.uploaded) <= t.uploaded && old(t.disk.bytes) <= t.disk.bytes
    ensures ShadowOf(t) == Called(t.info, old(ShadowOf(t)), call)
  {
    hide HeaderBytes, Segments, BlockSize, Block;
    match call {
      case Join(userId, role) =>
        var rv := t.ChangePullState(userId, role);
      case Push(userId, offset, data, beyond) =>
        if t.state.WaitingUpload? || t.state.Uploading? {
          SegmentsPositive(t.info.size);
          SegmentsTile(t.info.size, t.idx);
        }
        var rv := t.DoRecvData(userId, offset, data, beyond, 0);
      case Pull(userId, offset) =>
        var rv, data := t.DoPullFileRequest(userId, offset);
      case Closed =>
        t.ConnClosed();
      case SetOpenable(openable) =>
        t.disk.openable := openable;
    }
  }

  /** The sender never sends anything but the block of `content` that its offset
      names; everybody else may send anything. */
  ghost predicate Honest(info: TaskInfo, content: seq<byte>, calls: seq<Call>) {
    forall i, k: nat :: 0 <= i < |calls| && k < Segments(|content|) && PushesBlock(info, calls[i], k) ==>
      Block(content, k) <= calls[i].data
  }

  predicate PushesBlock(info: TaskInfo, call: Call, k: nat) {
    call.Push? && call.userId == info.fromUser && call.offset == k * SEGMENT_SIZE
  }

  /** What is stored, as far as the state tells. */
  ghost predicate StoresBlocks(s: Shadow, content: seq<byte>) {
    if s.state.Ready? || s.state.WaitingUpload? then s.idx == 0 && s.stored == []
    else if s.state.Uploading? then s.idx < Segments(|content|) && s.stored == Blocks(content, s.idx)
    else FromUploadEnd(s.state) && s.stored == content
  }

  /** From a new task, through any joins, closings, pulls, failing disks, repeated
      or misplaced blocks and foreign pushes in between: an honest sender's upload is
      always the first blocks of the content, and all of it once it has ended. */
  lemma {:induction false} HonestUploads(info: TaskInfo, content: seq<byte>, openable: bool, calls: seq<Call>)
    requires 0 < |content| == info.size && Honest(info, content, calls)
    ensures StoresBlocks(CalledAll(info, Shadow(Ready, 0, [], openable), calls), content)
    decreases |calls|
  {
    hide Segments, BlockSize, Block, Blocks, StoresBlocks, Called;
    if calls == [] {
      NothingYet(openable, content);
    } else {
      var n := |calls| - 1;
      assert Honest(info, content, calls[..n]);
      HonestUploads(info, content, openable, calls[..n]);
      var s := CalledAll(info, Shadow(Ready, 0, [], openable), calls[..n]);
      forall k: nat | k < Segments(|content|) && PushesBlock(info, calls[n], k)
        ensures Block(content, k) <= calls[n].data
      {
      }
      HonestCall(info, content, s, calls[n]);
    }
  }

  lemma NothingYet(openable: bool, content: seq<byte>)
    ensures StoresBlocks(Shadow(Ready, 0, [], openable), content)
  {
  }

  lemma HonestCall(info: TaskInfo, content: seq<byte>, s: Shadow, call: Call)
    requires 0 < |content| == info.size && StoresBlocks(s, content)
    requires forall k: nat :: k < Segments(|content|) && PushesBlock(info, call, k) ==> Block(content, k) <= call.data
    ensures StoresBlocks(Called(info, s, call), content)
  {
    hide Segments, BlockSize, Block;
    SegmentsPositive(info.size);
    if call.Push? && Called(info, s, call) != s {
      var k := s.idx;
      assert k < Segments(|content|);
      assert PushesBlock(info, call, k);
      SegmentsTile(|content|, k);
      assert (call.data + call.beyond)[..BlockSize(|content|, k)] == Block(content, k);
      assert Blocks(content, k + 1) == Blocks(content, k) + Block(content, k);
      BlocksJoin(content, k + 1);
    }
  }

  /** An honest sender's block can be read whenever one is taken. */
  lemma HonestReadable(info: TaskInfo, content: seq<byte>, openable: bool, calls: seq<Call>)
    requires 0 < |content| == info.size && Honest(info, content, calls)
    ensures AllReadable(info, Shadow(Ready, 0, [], openable), calls)
  {
    hide Segments, BlockSize, Block, Blocks, StoresBlocks, Called, Readable;
    forall i | 0 <= i < |calls|
      ensures Readable(info, CalledAll(info, Shadow(Ready, 0, [], openable), calls[..i]), calls[i])
    {
      assert Honest(info, content, calls[..i]);
      HonestUploads(info, content, openable, calls[..i]);
      var s := CalledAll(info, Shadow(Ready, 0, [], openable), calls[..i]);
      forall k: nat | k < Segments(|content|) && PushesBlock(info, calls[i], k)
        ensures Block(content, k) <= calls[i].data
      {
      }
      HonestReadableOne(info, content, s, calls[i]);
    }
  }

  lemma HonestReadableOne(info: TaskInfo, content: seq<byte>, s: Shadow, call: Call)
    requires 0 < |content| == info.size && StoresBlocks(s, content)
    requires forall k: nat :: k < Segments(|content|) && PushesBlock(info, call, k) ==> Block(content, k) <= call.data
    ensures Readable(info, s, call)
  {
    hide Segments, BlockSize, Block, Blocks;
    SegmentsPositive(info.size);
    if call.Push? && Takes(info, s, call.userId, call.offset) {
      assert PushesBlock(info, call, s.idx);
    }
  }

  /** So a new task, whatever calls it gets, always holds the first blocks of what
      an honest sender uploads, and its file is the header and those blocks. */
  method HonestRun(t: Task, content: seq<byte>, calls: seq<Call>)
    requires t.Valid() && t.state.Ready? && |content| == t.info.size && Honest(t.info, content, calls)
    modifies t, t.disk
    ensures t.Valid() && StoresBlocks(ShadowOf(t), content)
    ensures FromUploadEnd(t.state) ==> t.disk.present && t.disk.bytes == HeaderBytes(t.info, t.createTime) + content
  {
    hide HeaderBytes, Segments, BlockSize, Block, Called, CalledAll, AllReadable, Honest, Blocks;
    assert ShadowOf(t) == Shadow(Ready, 0, [], t.disk.openable);
    HonestReadable(t.info, content, t.disk.openable, calls);
    HonestUploads(t.info, content, t.disk.openable, calls);
    AnyRun(t, calls);
  }
}
