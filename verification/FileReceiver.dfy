/** The receiving side of a file transfer: tm_parse_file of src/system/cmdTM.c. */
module FileReceiver {
  import opened Options
  import opened Memory
  import opened Arithmetic
  import opened FileFrames

  type Name = seq<byte>

  const DIR: Name := [114, 101, 99, 118, 95, 102, 105, 108, 101, 115, 47]   // "recv_files/"
  const UNDERSCORE: byte := 95
  const DOT: byte := 46
  const SUFFIX: Name := [DOT, 112, 97, 114, 116]                            // ".part"
  const PART_NAME_MAX := 30                                                 // strlen(DIR) + 20, less the NUL

  /** "%d" */
  function Dec(n: nat): (r: Name)
    ensures 1 <= |r| && forall b | b in r :: 48 <= b <= 57
  {
    if n < 10 then [48 + n] else Dec(n / 10) + [48 + n % 10]
  }

  /** What "%s%d_%d_%d.part" prints before it is cut. */
  function FullPartName(id: nat, frame: nat, total: nat): Name {
    DIR + Dec(id) + [UNDERSCORE] + Dec(frame) + [UNDERSCORE] + Dec(total) + SUFFIX
  }

  /** The name snprintf leaves in the 31-byte buffer. */
  function PartName(id: nat, frame: nat, total: nat): Name {
    var full := FullPartName(id, frame, total);
    full[..Min(PART_NAME_MAX, |full|)]
  }

  /** The static variables of tm_parse_file, and the files written. */
  datatype Receiver = Receiver(fname: Option<Name>, lastId: int, lastFrame: int, files: map<Name, seq<byte>>)
  {
    /** What a file holds; a file that was never written holds nothing. */
    function Content(name: Name): seq<byte> { if name in files then files[name] else [] }
  }

  /** The file a START frame opens: the name sent, or the id and the name if that file exists. */
  function Target(files: map<Name, seq<byte>>, f: Frame): Name {
    var expected := DIR + CString(f.data);
    if expected in files then DIR + Dec(f.fileid) + [UNDERSCORE] + CString(f.data) else expected
  }

  /** A START or PART frame sets the file and the place in the sequence. */
  function Open(r: Receiver, f: Frame): Receiver {
    match f.kind
    case Start => r.(fname := Some(Target(r.files, f)), lastId := f.fileid, lastFrame := f.nframe)
    case Part => r.(fname := Some(PartName(f.fileid, f.nframe, f.total)), lastId := f.fileid, lastFrame := f.nframe - 1)
    case _ => r
  }

  /** The frame is the next one of the open file. */
  predicate InSequence(r: Receiver, f: Frame) {
    r.fname.Some? && r.lastId == f.fileid && r.lastFrame == f.nframe - 1
  }

  /** The bytes of a frame that go to the file: the fill is removed from the last one. */
  function Useful(f: Frame): seq<byte> {
    if f.kind.End? || (f.kind.Part? && f.nframe == f.total) then Strip(f.data) else f.data
  }

  /** tm_parse_file; `false` is CMD_ERROR */
  function Parse(r: Receiver, f: Frame): (Receiver, bool) {
    var r1 := Open(r, f);
    if f.kind.Start? then (r1, true)
    else if !InSequence(r1, f) then (r1, false)
    else
      var name := r1.fname.value;
      var before := if f.kind.Part? then [] else r1.Content(name);
      var files := r1.files[name := before + Useful(f)];
      if f.kind.Data? then (r1.(lastId := f.fileid, lastFrame := f.nframe, files := files), true)
      else (Receiver(None, 0, 0, files), true)
  }

  /** A sequence of frames, in the order they arrive. */
  function Deliver(r: Receiver, frames: seq<Frame>): Receiver
    decreases |frames|
  {
    if frames == [] then r else Deliver(Parse(r, frames[0]).0, frames[1..])
  }

  lemma {:induction false} DeliverAppend(r: Receiver, a: seq<Frame>, b: seq<Frame>)
    ensures Deliver(r, a + b) == Deliver(Deliver(r, a), b)
    decreases |a|
  {
    if a == [] {
      assert a + b == b;
    } else {
      assert (a + b)[1..] == a[1..] + b;
      DeliverAppend(Parse(r, a[0]).0, a[1..], b);
    }
  }

  class FileParser {
    var fname: Option<Name>
    var lastId: int
    var lastFrame: int
    var files: map<Name, seq<byte>>

    function Abs(): Receiver
      reads this
    {
      Receiver(fname, lastId, lastFrame, files)
    }

    constructor ()
      ensures Abs() == Receiver(None, 0, 0, map[])
    {
      fname, lastId, lastFrame, files := None, 0, 0, map[];
    }

    /** Name the file and take the place in the sequence that a START or PART frame gives. */
    method OpenFile(f: Frame)
      modifies this
      ensures Abs() == Open(old(Abs()), f)
    {
      if f.kind.Start? {
        fname, lastId, lastFrame := Some(Target(files, f)), f.fileid, f.nframe;
      } else if f.kind.Part? {
        fname, lastId, lastFrame := Some(PartName(f.fileid, f.nframe, f.total)), f.fileid, f.nframe - 1;
      }
    }

    /** Write the useful bytes of a frame: a part starts its file anew, the others append. */
    method WriteBytes(f: Frame)
      requires fname.Some?
      modifies this`files
      ensures files == old(files)[fname.value :=
        (if f.kind.Part? then [] else old(Abs()).Content(fname.value)) + Useful(f)]
    {
      var nbytes := |f.data|;
      if f.kind.End? || (f.kind.Part? && f.nframe == f.total) {
        nbytes := StripLength(f.data);
      }
      var useful := f.data[..nbytes];
      assert useful == Useful(f) && [] + useful == useful;
      if f.kind.Part? || fname.value !in files {
        files := files[fname.value := useful];
      } else {
        files := files[fname.value := files[fname.value] + useful];
      }
    }

    method ParseFile(f: Frame) returns (ok: bool)
      modifies this
      ensures (Abs(), ok) == Parse(old(Abs()), f)
    {
      OpenFile(f);
      if f.kind.Start? {
        return true;
      }
      if fname.None? || lastId != f.fileid || lastFrame != f.nframe - 1 {
        return false;
      }
      WriteBytes(f);
      lastId, lastFrame := f.fileid, f.nframe;
      if f.kind.End? || f.kind.Part? {
        fname, lastId, lastFrame := None, 0, 0;
      }
      return true;
    }
  }
}
