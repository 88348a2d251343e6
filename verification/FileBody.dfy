/** Serving a file, or a range of it, in frames that a server polls for. */
module FileServer {
  import opened Arithmetic
  import opened Framing
  import opened Sequences
  import opened Wrappers

  const BUFFER := 16 * 1024
  const U64 := 0x1_0000_0000_0000_0000

  /** What the runtime makes of one call on a file. */
  datatype Io = Blocks | Fails | Serves(n: nat)

  datatype Poll = Pending | Ready(n: nat) | Failed

  /** The bytes of a window of the file, as far as the file reaches. */
  function Window(content: seq<byte>, start: nat, length: nat): seq<byte> {
    if start >= |content| then []
    else if start + length <= |content| then content[start..start + length]
    else content[start..]
  }

  lemma WindowGrows(content: seq<byte>, start: nat, n: nat, k: nat)
    requires start + n + k <= |content| || k == 0
    ensures |Window(content, start + n, k)| == k && (k > 0 ==> |Window(content, start, n + k)| == n + k)
    ensures Window(content, start, n + k) == Window(content, start, n) + Window(content, start + n, k)
  {
  }

  // ---- What a poll yields ----

  /** A read serves some of what is there and fits: nothing only without room or at the end of the file. */
  function ReadSize(n: nat, room: nat, available: nat): (k: nat)
    ensures k <= room && k <= available && (k == 0 <==> room == 0 || available == 0)
  {
    var most := if room < available then room else available;
    if n == 0 && most > 0 then 1 else if n < most then n else most
  }

  function ReadOutcome(io: Io, room: nat, available: nat): Poll {
    match io
    case Blocks => Pending
    case Fails => Failed
    case Serves(n) => Ready(ReadSize(n, room, available))
  }

  function Available(content: seq<byte>, cursor: nat): nat {
    if cursor < |content| then |content| - cursor else 0
  }

  /** `n as usize`, where `usize` is the number of values of the platform's type; `CutIsModulo` */
  function Cut(n: nat, usize: nat): (r: nat)
    requires usize > 0
    ensures r < usize && r <= n
  {
    if n < usize then n else Cut(n - usize, usize)
  }

  /** `buf.len().min(remaining as usize)` */
  function Room(remaining: nat, usize: nat): nat
    requires usize > 0
  {
    var cut := Cut(remaining, usize);
    if BUFFER < cut then BUFFER else cut
  }

  datatype SeekState = NeedSeek | Seeking | Reading

  /** A full body needs no seek, so it starts out reading. */
  datatype Kind = Empty | Full | Range

  /** What one poll meets: the outcomes of starting a seek, completing it and reading. */
  datatype Meets = Meets(startSeek: Io, complete: Io, read: Io)

  datatype PollFrame = FramePending | Frame(data: seq<byte>) | End | FrameError

  /** A body of `content`, announced as `length` bytes from `start`, of which `emitted` are out. `usize` is
      the number of values of the platform's `usize`, to which the code cuts the number of remaining bytes. */
  datatype View = View(kind: Kind, seek: SeekState, content: seq<byte>, start: nat, length: nat, usize: nat,
                       emitted: nat)
  {
    /** Nothing is out before the seek is complete, and what is out lies within the file and within the
        length cut to a `usize`. */
    predicate Sensible() {
      && usize > BUFFER && emitted <= Cut(length, usize)
      && |Window(content, start, emitted)| == emitted
      && (kind.Empty? ==> length == 0)
      && (!seek.Reading? ==> emitted == 0)
    }

    function Remaining(): nat
      requires emitted <= length
    {
      length - emitted
    }

    /** The file reaches to the end of the announced bytes. */
    predicate Intact() {
      start + length <= |content|
    }
  }

  function Answer(v: View, meets: Meets): PollFrame
    requires v.Sensible()
  {
    if v.kind.Empty? then End
    else if SeekFails(v.seek, meets) then FrameError
    else if !v.seek.Reading? && meets.complete.Blocks? then FramePending
    else ReadAnswer(v, meets.read)
  }

  predicate SeekFails(seek: SeekState, meets: Meets) {
    || (seek.NeedSeek? && meets.startSeek.Fails?)
    || (!seek.Reading? && meets.complete.Fails?)
  }

  function ReadAnswer(v: View, io: Io): PollFrame
    requires v.Sensible()
  {
    AsFrame(Outcome(v, io), v.content, v.start + v.emitted)
  }

  /** What reading gives: the room and what is there bound it. */
  function Outcome(v: View, io: Io): Poll
    requires v.Sensible()
  {
    ReadOutcome(io, Room(v.Remaining(), v.usize), Available(v.content, v.start + v.emitted))
  }

  /** An empty read is the end. */
  function AsFrame(read: Poll, content: seq<byte>, cursor: nat): PollFrame {
    match read
    case Pending => FramePending
    case Failed => FrameError
    case Ready(n) => if n == 0 then End else Frame(Window(content, cursor, n))
  }

  lemma AnEndIsAnEnd(v: View, io: Io)
    requires v.Sensible()
    ensures ReadAnswer(v, io).End? ==> Cut(v.Remaining(), v.usize) == 0 || v.start + v.emitted >= |v.content|
  {
  }

  /** After a failed `start_seek` the state says that the seek is under way. */
  function SeekAfter(v: View, meets: Meets): SeekState {
    if v.kind.Empty? || v.seek.Reading? then v.seek
    else if v.seek.NeedSeek? && meets.startSeek.Fails? then Seeking
    else if meets.complete.Serves? then Reading
    else Seeking
  }

  /** A poll that comes to read. */
  lemma AfterTheSeek(v: View, meets: Meets)
    requires v.Sensible() && !v.kind.Empty? && SeekAfter(v, meets).Reading? && !SeekFails(v.seek, meets)
    ensures var seen := v.(seek := Reading);
            && seen.Sensible() && Answer(v, meets) == ReadAnswer(seen, meets.read)
            && After(v, meets) == seen.(emitted := v.emitted + FrameSize(ReadAnswer(seen, meets.read)))
  {
  }

  /** A poll that does not. */
  lemma BeforeTheSeek(v: View, meets: Meets)
    requires v.Sensible() && !v.kind.Empty? && (SeekFails(v.seek, meets) || !SeekAfter(v, meets).Reading?)
    ensures Answer(v, meets) == if SeekFails(v.seek, meets) then FrameError else FramePending
    ensures After(v, meets) == v.(seek := SeekAfter(v, meets))
  {
  }

  function FrameSize(answer: PollFrame): nat {
    if answer.Frame? then |answer.data| else 0
  }

  function After(v: View, meets: Meets): View
    requires v.Sensible()
  {
    v.(seek := SeekAfter(v, meets), emitted := v.emitted + FrameSize(Answer(v, meets)))
  }

  /** The next bytes of the window, as many as there is room for and the file still has. */
  lemma ReadKeeps(v: View, n: nat)
    requires v.Sensible() && v.seek.Reading?
    requires n <= Room(v.Remaining(), v.usize) && n <= Available(v.content, v.start + v.emitted)
    ensures v.emitted + n <= v.length && v.(emitted := v.emitted + n).Sensible()
    ensures |Window(v.content, v.start + v.emitted, n)| == n
    ensures Window(v.content, v.start, v.emitted + n) ==
            Window(v.content, v.start, v.emitted) + Window(v.content, v.start + v.emitted, n)
  {
    CutOfTheRest(v.length, v.emitted, v.usize);
    WindowGrows(v.content, v.start, v.emitted, n);
  }

  /** Bytes that follow what is out are out as well. */
  lemma OutcomeKeeps(v: View, io: Io, emitted: seq<byte>, data: seq<byte>)
    requires v.Sensible() && v.seek.Reading?
    requires |emitted| == v.emitted && emitted == Window(v.content, v.start, v.emitted)
    requires data == Window(v.content, v.start + v.emitted, |data|)
    requires |data| == if Outcome(v, io).Ready? then Outcome(v, io).n else 0
    ensures |data| <= BUFFER && |data| <= v.Remaining() && v.(emitted := |emitted + data|).Sensible()
    ensures emitted + data == Window(v.content, v.start, |emitted + data|)
  {
    ReadKeeps(v, |data|);
  }

  /** A read puts out what its frame holds. */
  lemma ReadAnswerKeeps(v: View, io: Io)
    requires v.Sensible() && v.seek.Reading?
    ensures var a := ReadAnswer(v, io);
            && FrameSize(a) <= Room(v.Remaining(), v.usize)
            && v.(emitted := v.emitted + FrameSize(a)).Sensible()
            && Window(v.content, v.start, v.emitted + FrameSize(a)) ==
                 Window(v.content, v.start, v.emitted) + if a.Frame? then a.data else []
  {
    ReadKeeps(v, FrameSize(ReadAnswer(v, io)));
  }

  /** A frame is the next bytes of the announced window, and takes no more than the room. */
  lemma PollKeeps(v: View, meets: Meets)
    requires v.Sensible()
    ensures After(v, meets).Sensible() && FrameSize(Answer(v, meets)) <= Room(v.Remaining(), v.usize)
    ensures var a := Answer(v, meets);
            Window(v.content, v.start, After(v, meets).emitted) ==
              Window(v.content, v.start, v.emitted) + if a.Frame? then a.data else []
  {
    if v.kind.Empty? {
    } else if SeekFails(v.seek, meets) || !SeekAfter(v, meets).Reading? {
      BeforeTheSeek(v, meets);
    } else {
      AfterTheSeek(v, meets);
      ReadAnswerKeeps(v.(seek := Reading), meets.read);
    }
  }

  /** What is left, cut to a `usize`, is what is left of the cut length; so a read never crosses it. */
  lemma {:induction false} CutOfTheRest(length: nat, emitted: nat, usize: nat)
    requires usize > 0 && emitted <= Cut(length, usize)
    ensures Cut(length - emitted, usize) == Cut(length, usize) - emitted
    decreases length
  {
    if length < usize {
      assert Cut(length - emitted, usize) == length - emitted;
    } else {
      CutOfTheRest(length - usize, emitted, usize);
      assert length - emitted - usize == length - usize - emitted;
    }
  }

  lemma {:induction false} CutIsModulo(n: nat, usize: nat)
    requires usize > 0
    ensures Cut(n, usize) == n % usize
  {
    if n < usize {
      LessIsItsRemainder(n, usize);
    } else {
      OneModulusMore(n - usize, usize);
      CutIsModulo(n - usize, usize);
    }
  }

  // ---- The file ----

  /** An open file, read at a cursor. A seek takes effect when it completes. */
  class File {
    const content: seq<byte>
    var cursor: nat
    var seeking: Option<nat>

    constructor (content: seq<byte>)
      ensures this.content == content && cursor == 0 && seeking == None
    {
      this.content := content;
      cursor := 0;
      seeking := None;
    }

    /** Reads bytes at the cursor. */
    method PollRead(room: nat, io: Io) returns (r: Poll, data: seq<byte>)
      modifies `cursor
      ensures r == ReadOutcome(io, room, Available(content, old(cursor)))
      ensures data == Window(content, old(cursor), |data|) && |data| == if r.Ready? then r.n else 0
      ensures cursor == old(cursor) + |data|
    {
      r := ReadOutcome(io, room, Available(content, cursor));
      data := if r.Ready? then Window(content, cursor, r.n) else [];
      cursor := cursor + |data|;
    }

    method StartSeek(target: nat, io: Io) returns (ok: bool)
      modifies `seeking
      ensures ok <==> !io.Fails?
      ensures seeking == if ok then Some(target) else old(seeking)
    {
      ok := !io.Fails?;
      if ok {
        seeking := Some(target);
      }
    }

    method PollComplete(io: Io) returns (r: Poll)
      modifies this
      ensures r.Pending? <==> io.Blocks?
      ensures r.Failed? <==> io.Fails?
      ensures r.Ready? ==> seeking == None && cursor == if old(seeking).Some? then old(seeking).value else old(cursor)
      ensures !r.Ready? ==> seeking == old(seeking) && cursor == old(cursor)
    {
      match io
      case Blocks => r := Pending;
      case Fails => r := Failed;
      case Serves(_) =>
        if seeking.Some? {
          cursor := seeking.value;
        }
        seeking := None;
        r := Ready(0);
    }
  }

  // ---- The body ----

  class FileBody {
    const kind: Kind
    const file: File
    const startOffset: nat
    const usize: nat
    var remaining: nat
    var seekState: SeekState

    const length: nat
    ghost var emitted: seq<byte>
    ghost var stopped: bool

    constructor (kind: Kind, file: File, start: nat, length: nat, usize: nat)
      requires usize > BUFFER && file.cursor == 0 && (!kind.Range? ==> start == 0) && (kind.Empty? ==> length == 0)
      ensures Valid() && !stopped && emitted == [] && remaining == length
      ensures this.kind == kind && this.file == file && this.startOffset == start && this.length == length
      ensures this.usize == usize
      ensures Seen() == FreshView(kind, file.content, start, length, usize)
    {
      this.kind := kind;
      this.file := file;
      this.startOffset := start;
      this.usize := usize;
      this.length := length;
      remaining := length;
      seekState := if kind == Range then NeedSeek else Reading;
      emitted := [];
      stopped := false;
    }

    ghost function Seen(): View
      reads this
    {
      View(kind, seekState, file.content, startOffset, length, usize, |emitted|)
    }

    /** Nothing is read before the seek is complete; then the cursor is where the announced bytes go on.
        Emitted and remaining bytes make up the announced length. */
    ghost predicate Valid()
      reads this, file
    {
      && Seen().Sensible()
      && |emitted| + remaining == length
      && emitted == Window(file.content, startOffset, |emitted|)
      && (seekState == Reading ==> file.cursor == startOffset + |emitted|)
      && (seekState == Seeking && !stopped ==> file.seeking == Some(startOffset))
    }

    /** `poll_read` */
    method PollRead(io: Io) returns (r: Poll, data: seq<byte>)
      requires Valid() && seekState == Reading && !stopped && !kind.Empty?
      modifies `remaining, `emitted, file`cursor
      ensures Valid() && emitted == old(emitted) + data && |data| <= BUFFER
      ensures r == Outcome(old(Seen()), io)
      ensures Seen() == old(Seen()).(emitted := |emitted|)
      ensures |data| == if r.Ready? then r.n else 0
      ensures data == Window(file.content, startOffset + |old(emitted)|, |data|)
    {
      ghost var v := Seen();
      assert remaining == v.Remaining() && file.cursor == v.start + v.emitted;
      var room := Room(remaining, usize);
      r, data := file.PollRead(room, io);
      assert r == Outcome(v, io);
      OutcomeKeeps(v, io, emitted, data);
      if r.Ready? {
        remaining := remaining - r.n;
      }
      emitted := emitted + data;
      assert Seen() == v.(emitted := |emitted|);
    }

    /** The seek, if there is one to make: whether it is complete. */
    method PollSeek(meets: Meets) returns (r: Poll)
      requires Valid() && !stopped && !kind.Empty?
      modifies `seekState, file
      ensures seekState == SeekAfter(old(Seen()), meets)
      ensures r.Ready? <==> seekState == Reading
      ensures r.Failed? <==> SeekFails(old(seekState), meets)
      ensures !r.Failed? ==> Valid()
      ensures r.Failed? ==> seekState == Seeking
    {
      if seekState == NeedSeek {
        seekState := Seeking;
        var ok := file.StartSeek(startOffset, meets.startSeek);
        if !ok {
          return Failed;
        }
      }
      r := Ready(0);
      if seekState == Seeking {
        r := file.PollComplete(meets.complete);
        if r.Ready? {
          seekState := Reading;
        }
      }
    }

    /** `poll_frame`; after an error or the end a server does not poll again. */
    method PollNext(meets: Meets) returns (r: PollFrame)
      requires Valid() && !stopped
      modifies this, file
      ensures Valid() && r == Answer(old(Seen()), meets) && Seen() == After(old(Seen()), meets)
      ensures emitted == old(emitted) + if r.Frame? then r.data else []
      ensures stopped <==> r.End? || r.FrameError?
      ensures r.Frame? ==> 0 < |r.data| <= BUFFER && seekState == Reading
      ensures r.End? && !kind.Empty? ==> Cut(remaining, usize) == 0 || startOffset + |emitted| >= |file.content|
    {
      if kind == Empty {
        stopped := true;
        return End;
      }
      ghost var v := Seen();
      var ready := PollSeek(meets);
      if !ready.Ready? {
        BeforeTheSeek(v, meets);
      } else {
        AfterTheSeek(v, meets);
      }
      if ready.Pending? {
        return FramePending;
      }
      if ready.Failed? {
        stopped := true;
        return FrameError;
      }
      r := PollFile(meets.read);
    }

    /** The read of a poll, as a frame. */
    method PollFile(io: Io) returns (r: PollFrame)
      requires Valid() && seekState == Reading && !stopped && !kind.Empty?
      modifies `remaining, `emitted, `stopped, file`cursor
      ensures Valid() && r == ReadAnswer(old(Seen()), io)
      ensures Seen() == old(Seen()).(emitted := old(Seen()).emitted + FrameSize(r))
      ensures emitted == old(emitted) + if r.Frame? then r.data else []
      ensures r.Frame? ==> 0 < |r.data| <= BUFFER
      ensures stopped <==> r.End? || r.FrameError?
      ensures r.End? ==> Cut(remaining, usize) == 0 || startOffset + |emitted| >= |file.content|
    {
      ghost var v := Seen();
      AnEndIsAnEnd(v, io);
      var read, data := PollRead(io);
      r := MakeFrame(read, data, file.content, v.start + v.emitted);
      assert r == ReadAnswer(v, io);
      stopped := r.End? || r.FrameError?;
    }

    /** The tail of `poll_frame`. */
    static method MakeFrame(read: Poll, data: seq<byte>, ghost content: seq<byte>, ghost cursor: nat)
      returns (r: PollFrame)
      requires |data| == (if read.Ready? then read.n else 0) && data == Window(content, cursor, |data|)
      ensures r == AsFrame(read, content, cursor) && data == if r.Frame? then r.data else []
      ensures r.Frame? ==> data != []
    {
      match read
      case Pending => r := FramePending;
      case Failed => r := FrameError;
      case Ready(n) => r := if n == 0 then End else Frame(data);
    }
  }

  // ---- Whole runs ----

  datatype Ending = Unfinished | Finished | Broken

  /** What a schedule of polls yields: the frames, how it ended and what the body is then. */
  datatype Played = Played(frames: seq<seq<byte>>, ending: Ending, view: View)

  function FreshView(kind: Kind, content: seq<byte>, start: nat, length: nat, usize: nat): View {
    View(kind, if kind.Range? then NeedSeek else Reading, content, start, length, usize, 0)
  }

  lemma FreshIsSensible(kind: Kind, content: seq<byte>, start: nat, length: nat, usize: nat)
    requires usize > BUFFER && (kind.Empty? ==> length == 0)
    ensures FreshView(kind, content, start, length, usize).Sensible()
  {
  }

  /** Polls until the end, an error or the end of the schedule. */
  function Play(v: View, schedule: seq<Meets>): Played
    requires v.Sensible()
    decreases |schedule|
  {
    if schedule == [] then
      Played([], Unfinished, v)
    else
      var a := Answer(v, schedule[0]);
      PollKeeps(v, schedule[0]);
      var w := After(v, schedule[0]);
      match a
      case End => Played([], Finished, w)
      case FrameError => Played([], Broken, w)
      case FramePending => Play(w, schedule[1..])
      case Frame(data) =>
        var rest := Play(w, schedule[1..]);
        Played([data] + rest.frames, rest.ending, rest.view)
  }

  function Concat(frames: seq<seq<byte>>): seq<byte> {
    if frames == [] then [] else frames[0] + Concat(frames[1..])
  }

  lemma CutsNothing(length: nat, usize: nat)
    requires usize > 0
    ensures Cut(length, usize) == length % usize
    ensures length % usize == length <==> length < usize
  {
    CutIsModulo(length, usize);
  }

  lemma CountAtTheEnd(v: View)
    requires v.Sensible() && v.Intact()
    requires v.kind.Empty? || Cut(v.Remaining(), v.usize) == 0 || v.start + v.emitted >= |v.content|
    ensures v.emitted == Cut(v.length, v.usize)
  {
    CutOfTheRest(v.length, v.emitted, v.usize);
  }

  /** For every schedule the frames are the announced bytes that are newly out, in order. */
  lemma {:induction false} FramesAreAPrefix(v: View, schedule: seq<Meets>)
    requires v.Sensible()
    ensures var p := Play(v, schedule);
            && p.view.Sensible()
            && Window(v.content, v.start, p.view.emitted) == Window(v.content, v.start, v.emitted) + Concat(p.frames)
            && p.view == v.(seek := p.view.seek, emitted := p.view.emitted)
    decreases |schedule|
  {
    if schedule == [] {
    } else {
      var a, w := Answer(v, schedule[0]), After(v, schedule[0]);
      PollKeeps(v, schedule[0]);
      if a.Frame? || a.FramePending? {
        FramesAreAPrefix(w, schedule[1..]);
      }
      if a.Frame? {
        var rest := Play(w, schedule[1..]).frames;
        assert ([a.data] + rest)[1..] == rest;
        AppendAssociates(Window(v.content, v.start, v.emitted), a.data, Concat(rest));
      }
    }
  }

  /** A body that ends, of a file that reaches that far, has put out the length cut to a `usize`. */
  lemma {:induction false} EndsAtTheCut(v: View, schedule: seq<Meets>)
    requires v.Sensible() && v.Intact() && Play(v, schedule).ending.Finished?
    ensures Play(v, schedule).view.emitted == Cut(v.length, v.usize)
    decreases |schedule|
  {
    var a, w := Answer(v, schedule[0]), After(v, schedule[0]);
    PollKeeps(v, schedule[0]);
    if a.End? {
      CountAtTheEnd(v);
    } else {
      EndsAtTheCut(w, schedule[1..]);
    }
  }

  predicate Serving(meets: Meets) {
    meets.startSeek.Serves? && meets.complete.Serves? && meets.read.Serves?
  }

  predicate NeverFails(schedule: seq<Meets>) {
    forall i :: 0 <= i < |schedule| ==>
      !schedule[i].startSeek.Fails? && !schedule[i].complete.Fails? && !schedule[i].read.Fails?
  }

  /** How many polls find everything ready. */
  function ServingPolls(schedule: seq<Meets>): nat {
    if schedule == [] then 0 else (if Serving(schedule[0]) then 1 else 0) + ServingPolls(schedule[1..])
  }

  /** A poll that finds everything ready brings bytes or the end. */
  lemma ServingPollMoves(v: View, meets: Meets)
    requires v.Sensible() && Serving(meets)
    ensures Answer(v, meets).End? || FrameSize(Answer(v, meets)) > 0
  {
  }

  /** Without failures, more ready polls than remaining bytes bring the end, whatever lies between them. */
  lemma {:induction false} ReadyPollsEnd(v: View, schedule: seq<Meets>)
    requires v.Sensible() && NeverFails(schedule) && ServingPolls(schedule) > v.Remaining()
    ensures Play(v, schedule).ending.Finished?
    decreases |schedule|
  {
    var a, w := Answer(v, schedule[0]), After(v, schedule[0]);
    PollKeeps(v, schedule[0]);
    if Serving(schedule[0]) {
      ServingPollMoves(v, schedule[0]);
    }
    if a.End? {
    } else {
      ReadyPollsEnd(w, schedule[1..]);
    }
  }

  /** An intact file, no failures and more ready polls than bytes: the body ends, and it has delivered the
      first `length % usize` of the announced bytes; these are all of them if and only if the length fits a
      `usize`. */
  lemma DeliversAllIffTheLengthFits(kind: Kind, content: seq<byte>, start: nat, length: nat, usize: nat,
                                    schedule: seq<Meets>)
    requires usize > BUFFER && !kind.Empty? && start + length <= |content|
    requires NeverFails(schedule) && ServingPolls(schedule) > length
    ensures FreshView(kind, content, start, length, usize).Sensible()
    ensures var p := Play(FreshView(kind, content, start, length, usize), schedule);
            && p.ending.Finished?
            && Concat(p.frames) == Window(content, start, length % usize)
            && (Concat(p.frames) == Window(content, start, length) <==> length < usize)
  {
    var v := FreshView(kind, content, start, length, usize);
    FreshIsSensible(kind, content, start, length, usize);
    ReadyPollsEnd(v, schedule);
    EndsAtTheCut(v, schedule);
    FramesAreAPrefix(v, schedule);
    CutsNothing(length, usize);
    assert [] + Concat(Play(v, schedule).frames) == Concat(Play(v, schedule).frames);
    assert |Window(content, start, length)| == length;
  }

  /** A body of exactly `usize` bytes ends on its first ready poll with nothing delivered. */
  lemma WideBodyEndsAtOnce(content: seq<byte>, usize: nat, meets: Meets)
    requires |content| == usize > BUFFER && Serving(meets)
    ensures FreshView(Full, content, 0, usize, usize).Sensible()
    ensures var p := Play(FreshView(Full, content, 0, usize, usize), [meets]);
            p.ending.Finished? && p.frames == [] && Window(content, 0, usize) == content != []
  {
    var v := FreshView(Full, content, 0, usize, usize);
    FreshIsSensible(Full, content, 0, usize, usize);
    assert Room(v.Remaining(), usize) == 0;
    assert Answer(v, meets) == End;
  }

  /** The body plays the schedule. */
  method Stream(body: FileBody, schedule: seq<Meets>) returns (frames: seq<seq<byte>>, ending: Ending)
    requires body.Valid() && !body.stopped && body.emitted == []
    modifies body, body.file
    ensures body.Valid() && Played(frames, ending, body.Seen()) == Play(old(body.Seen()), schedule)
    ensures |Concat(frames)| + body.remaining == body.length
    ensures Concat(frames) == Window(body.file.content, body.startOffset, |Concat(frames)|)
    ensures ending.Finished? && body.startOffset + body.length <= |body.file.content| ==>
              Concat(frames) == Window(body.file.content, body.startOffset, body.length % body.usize)
    ensures ending.Finished? && body.startOffset + body.length <= |body.file.content| ==>
              (Concat(frames) == Window(body.file.content, body.startOffset, body.length) <==> body.length < body.usize)
  {
    ghost var v := body.Seen();
    ghost var whole := Play(v, schedule);
    frames, ending := RunSchedule(body, schedule);
    FramesAreAPrefix(v, schedule);
    if ending.Finished? && v.Intact() {
      EndsAtTheCut(v, schedule);
      CutsNothing(v.length, v.usize);
      assert |Window(v.content, v.start, v.length)| == v.length;
    }
  }

  /** `frames` are out and `rest` is still to come. */
  ghost predicate Continues(whole: Played, frames: seq<seq<byte>>, rest: Played) {
    whole == Played(frames + rest.frames, rest.ending, rest.view)
  }

  /** One poll further in a schedule. */
  lemma PlayOn(whole: Played, frames: seq<seq<byte>>, v: View, schedule: seq<Meets>, i: nat)
    requires v.Sensible() && i < |schedule| && Continues(whole, frames, Play(v, schedule[i..]))
    ensures After(v, schedule[i]).Sensible()
    ensures match Answer(v, schedule[i])
            case End => whole == Played(frames, Finished, After(v, schedule[i]))
            case FrameError => whole == Played(frames, Broken, After(v, schedule[i]))
            case FramePending => Continues(whole, frames, Play(After(v, schedule[i]), schedule[i + 1..]))
            case Frame(data) => Continues(whole, frames + [data], Play(After(v, schedule[i]), schedule[i + 1..]))
  {
    PollKeeps(v, schedule[i]);
    assert schedule[i..][0] == schedule[i] && schedule[i..][1..] == schedule[i + 1..];
    match Answer(v, schedule[i])
    case Frame(data) =>
      AppendAssociates(frames, [data], Play(After(v, schedule[i]), schedule[i + 1..]).frames);
    case _ =>
      assert frames + [] == frames;
  }

  lemma PlayEnds(whole: Played, frames: seq<seq<byte>>, v: View, schedule: seq<Meets>)
    requires v.Sensible() && Continues(whole, frames, Play(v, schedule[|schedule|..]))
    ensures whole == Played(frames, Unfinished, v)
  {
    assert schedule[|schedule|..] == [] && frames + [] == frames;
  }

  method RunSchedule(body: FileBody, schedule: seq<Meets>) returns (frames: seq<seq<byte>>, ending: Ending)
    requires body.Valid() && !body.stopped
    modifies body, body.file
    ensures body.Valid() && Played(frames, ending, body.Seen()) == Play(old(body.Seen()), schedule)
  {
    frames := [];
    ghost var whole := Play(body.Seen(), schedule);
    assert schedule[0..] == schedule && frames + whole.frames == whole.frames;
    for i := 0 to |schedule|
      invariant body.Valid() && !body.stopped
      invariant Continues(whole, frames, Play(body.Seen(), schedule[i..]))
    {
      PlayOn(whole, frames, body.Seen(), schedule, i);
      var r := body.PollNext(schedule[i]);
      match r
      case FramePending =>
      case Frame(data) => frames := frames + [data];
      case End => return frames, Finished;
      case FrameError => return frames, Broken;
    }
    PlayEnds(whole, frames, body.Seen(), schedule);
    ending := Unfinished;
  }

  // ---- The response ----

  datatype ByteRange = ByteRange(start: nat, length: nat)

  /** The ranges that the request's header names, if it has one and it can be parsed. */
  datatype RangeHeader = Absent | Malformed | Ranges(ranges: seq<ByteRange>)

  datatype ContentRange = ContentRange(first: nat, last: nat, total: nat)

  datatype Response = Response(status: nat, contentLength: Option<nat>, contentRange: Option<ContentRange>)

  /** What is assumed of the range parser: ranges lie within the file. */
  predicate Satisfiable(header: RangeHeader, fileLength: nat) {
    header.Ranges? ==>
      forall i :: 0 <= i < |header.ranges| ==> header.ranges[i].start + header.ranges[i].length <= fileLength
  }

  /** `start + length - 1`, which wraps around for no bytes at the start of the file. */
  function LastByte(start: nat, length: nat): nat {
    if start + length == 0 then U64 - 1 else start + length - 1
  }

  /** Whether a range header is answered with a part of the file. */
  predicate AsksForAPart(header: RangeHeader) {
    header.Ranges? && header.ranges != []
  }

  /** The part of `handle_request` that announces a body and makes it. Only the first range is served. The
      announced range names the bytes of the body, unless there are none. */
  method Respond(header: RangeHeader, file: File, fileLength: nat, usize: nat) returns (r: Response, body: FileBody)
    requires Satisfiable(header, fileLength) && fileLength < U64 && file.cursor == 0 && usize > BUFFER
    ensures fresh(body) && body.Valid() && !body.stopped && body.file == file && body.emitted == []
    ensures body.Seen() == FreshView(body.kind, file.content, body.startOffset, body.length, usize)
    ensures r.status in {200, 206, 400}
    ensures r.status == 200 <==> header.Absent?
    ensures r.status == 200 ==> body.kind == Full && body.startOffset == 0 && body.length == fileLength
    ensures r.status == 200 ==> r == Response(200, Some(fileLength), None)
    ensures r.status == 206 <==> AsksForAPart(header)
    ensures r.status == 206 ==>
              && var range := header.ranges[0];
              && body.kind == Range && body.startOffset == range.start && body.length == range.length
              && r.contentLength == Some(range.length)
              && r.contentRange.Some?
              && var announced := r.contentRange.value;
              && announced.first == range.start && announced.total == fileLength
              && (announced.first <= announced.last < announced.total <==> range.length > 0)
              && announced.last == LastByte(range.start, range.length)
              && (range.length > 0 ==> announced.last - announced.first + 1 == range.length)
    ensures r.status == 400 ==> body.kind == Empty && body.length == 0 && r == Response(400, None, None)
  {
    match header
    case Absent =>
      body := new FileBody(Full, file, 0, fileLength, usize);
      r := Response(200, Some(fileLength), None);
    case Ranges(ranges) =>
      if ranges != [] {
        var range := ranges[0];
        body := new FileBody(Range, file, range.start, range.length, usize);
        r := Response(206, Some(range.length),
                      Some(ContentRange(range.start, LastByte(range.start, range.length), fileLength)));
      } else {
        body := new FileBody(Empty, file, 0, 0, usize);
        r := Response(400, None, None);
      }
    case Malformed =>
      body := new FileBody(Empty, file, 0, 0, usize);
      r := Response(400, None, None);
  }

  /** The bytes that a request asks for: the first range, or the whole file. */
  function Requested(header: RangeHeader, fileLength: nat): ByteRange
    requires header.Absent? || AsksForAPart(header)
  {
    if header.Absent? then ByteRange(0, fileLength) else header.ranges[0]
  }

  /** A request answered and its body polled: without failures and with enough ready polls the client gets
      what it asked for, as many bytes as announced, if and only if their number fits a `usize`. */
  method Serve(header: RangeHeader, file: File, usize: nat, schedule: seq<Meets>)
    returns (r: Response, frames: seq<seq<byte>>, ending: Ending)
    requires Satisfiable(header, |file.content|) && |file.content| < U64 && file.cursor == 0 && usize > BUFFER
    requires NeverFails(schedule) && ServingPolls(schedule) > |file.content|
    modifies file
    ensures ending.Finished?
    ensures r.status == 400 ==> Concat(frames) == []
    ensures r.status in {200, 206} ==>
              && (header.Absent? || AsksForAPart(header))
              && var range := Requested(header, |file.content|);
              && r.contentLength == Some(range.length)
              && Delivers(Concat(frames), file.content[range.start..range.start + range.length], usize)
  {
    var body;
    r, body := Respond(header, file, |file.content|, usize);
    frames, ending := StreamAll(body, schedule);
  }

  /** A fresh body of an intact file polled to its end. */
  method StreamAll(body: FileBody, schedule: seq<Meets>) returns (frames: seq<seq<byte>>, ending: Ending)
    requires body.Valid() && !body.stopped && body.emitted == []
    requires body.startOffset + body.length <= |body.file.content|
    requires NeverFails(schedule) && ServingPolls(schedule) > body.length
    modifies body, body.file
    ensures ending.Finished?
    ensures var asked := body.file.content[body.startOffset..body.startOffset + body.length];
            Delivers(Concat(frames), asked, body.usize)
  {
    ghost var v := body.Seen();
    frames, ending := Stream(body, schedule);
    ReadyPollsEnd(v, schedule);
    WindowDelivers(v.content, v.start, v.length, v.usize, Concat(frames));
  }

  /** The first bytes of what was asked for, as many as its number cut to a `usize`: all of them if and only if
      the number fits. */
  ghost predicate Delivers(delivered: seq<byte>, asked: seq<byte>, usize: nat)
    requires usize > 0
  {
    && |delivered| == |asked| % usize && delivered <= asked
    && (delivered == asked <==> |asked| < usize)
  }

  lemma WindowDelivers(content: seq<byte>, start: nat, length: nat, usize: nat, delivered: seq<byte>)
    requires usize > 0 && start + length <= |content| && delivered == Window(content, start, length % usize)
    ensures Delivers(delivered, content[start..start + length], usize)
  {
    CutsNothing(length, usize);
    SliceDelivers(content, start, length, Cut(length, usize), delivered);
  }

  lemma SliceDelivers(content: seq<byte>, start: nat, length: nat, n: nat, delivered: seq<byte>)
    requires n <= length && start + length <= |content| && delivered == Window(content, start, n)
    ensures |delivered| == n && delivered <= content[start..start + length]
  {
    if start < |content| {
      var asked := content[start..start + length];
      assert delivered == content[start..start + n] == asked[..n];
    }
  }
}
