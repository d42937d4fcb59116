/** A flight-plan entry and the 512-byte flash container it is kept in (src/lib/storage/storage_flash.c). */
module PlanRecord {
  import opened Memory

  const FP_NULL: int32 := -1       // ST_FP_NULL, the time of a free row
  const STR_MAX := 248             // ST_CMD_MAX_STR_PARAMS and ST_CMD_MAX_STR_NAME

  datatype Entry = Entry(time: int32, executions: int32, period: int32, node: int32, cmd: seq<byte>, args: seq<byte>)
  {
    /** Strings the container can hold with their terminator. */
    predicate Storable() {
      |cmd| < STR_MAX && |args| < STR_MAX && 0 !in cmd && 0 !in args
    }
  }

  /**
   * `fp_entry_clear`. The NULL strings of a free row appear as empty ones; only a copy of the row may look at them.
   */
  function Cleared(commNode: int32): Entry { Entry(FP_NULL, 0, 0, commNode, [], []) }

  /** memset to zero, then `strncpy` of at most 248 bytes. */
  function Field(s: seq<byte>): (r: seq<byte>)
    ensures |r| == STR_MAX
  {
    if |s| >= STR_MAX then s[..STR_MAX] else s + Zeros(STR_MAX - |s|)
  }

  function Encode(e: Entry): (r: seq<byte>)
    ensures |r| == PAGE
  {
    Word(Unsigned(e.time)) + Word(Unsigned(e.executions)) + Word(Unsigned(e.period)) + Word(Unsigned(e.node)) +
    Field(e.cmd) + Field(e.args)
  }

  /** `strdup` of the two character arrays: an unterminated `cmd` runs on into `args`. */
  function Decode(b: seq<byte>): Entry
    requires |b| == PAGE
  {
    Entry(Signed(Unword(b[0..4])), Signed(Unword(b[4..8])), Signed(Unword(b[8..12])), Signed(Unword(b[12..16])),
          CString(b[16..]), CString(b[16 + STR_MAX..]))
  }

  lemma DecodeParts(a: seq<byte>, b: seq<byte>, c: seq<byte>, d: seq<byte>, f: seq<byte>, g: seq<byte>)
    requires |a| == |b| == |c| == |d| == 4 && |f| == |g| == STR_MAX
    ensures Decode(a + b + c + d + f + g) ==
      Entry(Signed(Unword(a)), Signed(Unword(b)), Signed(Unword(c)), Signed(Unword(d)), CString(f + g), CString(g))
  {
    var r := a + b + c + d + f + g;
    assert r[0..4] == a;
    assert r[4..8] == b;
    assert r[8..12] == c;
    assert r[12..16] == d;
    assert r[16..] == f + g;
    assert r[16 + STR_MAX..] == g;
  }

  lemma StringsOf(cmd: seq<byte>, args: seq<byte>)
    requires |cmd| < STR_MAX && |args| < STR_MAX && 0 !in cmd && 0 !in args
    ensures CString(Field(cmd) + Field(args)) == cmd && CString(Field(args)) == args
  {
    var pad := Zeros(STR_MAX - |cmd|) + Field(args);
    assert Field(cmd) + Field(args) == cmd + pad;
    CStringOf(cmd, pad);
    CStringOf(args, Zeros(STR_MAX - |args|));
  }

  /** What goes into a container comes back, for every storable entry. */
  lemma DecodeEncode(e: Entry)
    requires e.Storable()
    ensures Decode(Encode(e)) == e
  {
    DecodeParts(Word(Unsigned(e.time)), Word(Unsigned(e.executions)), Word(Unsigned(e.period)), Word(Unsigned(e.node)),
                Field(e.cmd), Field(e.args));
    SignedRoundTrip(e.time);
    SignedRoundTrip(e.executions);
    SignedRoundTrip(e.period);
    SignedRoundTrip(e.node);
    StringsOf(e.cmd, e.args);
  }

  /** A name of 248 bytes or more fills its field without a terminator, and runs on into the arguments. */
  lemma LongName(e: Entry)
    requires |e.cmd| >= STR_MAX && |e.args| < STR_MAX && 0 !in e.cmd && 0 !in e.args
    ensures Decode(Encode(e)) == e.(cmd := e.cmd[..STR_MAX] + e.args)
  {
    DecodeParts(Word(Unsigned(e.time)), Word(Unsigned(e.executions)), Word(Unsigned(e.period)), Word(Unsigned(e.node)),
                Field(e.cmd), Field(e.args));
    SignedRoundTrip(e.time);
    SignedRoundTrip(e.executions);
    SignedRoundTrip(e.period);
    SignedRoundTrip(e.node);
    var front, pad := e.cmd[..STR_MAX], Zeros(STR_MAX - |e.args|);
    assert Field(e.cmd) + Field(e.args) == (front + e.args) + pad;
    CStringOf(front + e.args, pad);
    CStringOf(e.args, pad);
  }

  /**
   * Exactly when an entry comes back: its name has room for the terminator, or what was cut off the
   * name happens to be the arguments (none, for a name of just 248 bytes).
   */
  lemma DecodeEncodeIff(e: Entry)
    requires |e.args| < STR_MAX && 0 !in e.cmd && 0 !in e.args
    ensures Decode(Encode(e)) == e <==> |e.cmd| < STR_MAX || e.cmd[STR_MAX..] == e.args
  {
    if |e.cmd| < STR_MAX {
      DecodeEncode(e);
    } else {
      LongName(e);
      var front := e.cmd[..STR_MAX];
      assert e.cmd == front + e.cmd[STR_MAX..];
      if front + e.args == e.cmd { assert e.cmd[STR_MAX..] == (front + e.args)[STR_MAX..] == e.args; }
    }
  }
}
