/**
  Runs of calls on an open file against a byte string with a position: every answer and every state is what the
  byte string allows, whatever the private buffer, direct transfers and the window do meanwhile.
 */
module FatRuns {
  import opened Basics
  import opened FatWindow
  import opened FatTable
  import opened FatChains
  import opened FatFile
  import opened SectorBytes

  /** The bytes of the file, its position, and whether the volume has a free cluster. */
  datatype File = File(content: seq<byte>, pos: nat, space: bool)

  datatype Call = Reading(count: dword) | Writing(data: seq<byte>) | Seeking(target: dword) | Cutting

  datatype Answer = Denied | Data(data: seq<byte>) | Count(bw: nat) | Done

  function Least(a: nat, b: nat): nat {
    if a < b then a else b
  }

  /** What a call may answer and leave behind. Bytes of a gap made by seeking are not specified. */
  predicate Allows(f: File, c: Call, canRead: bool, canWrite: bool, a: Answer, f': File)
    requires f.pos <= |f.content|
  {
    match c
    case Reading(count) =>
      if !canRead then a == Denied && f'.content == f.content && f'.pos == f.pos
      else
        var n := Least(count, |f.content| - f.pos);
        a == Data(f.content[f.pos..f.pos + n]) && f' == f.(pos := f.pos + n)
    case Writing(data) =>
      if !canWrite then a == Denied && f'.content == f.content && f'.pos == f.pos
      else
        && a.Count? && a.bw <= |data| && f'.content == Spliced(f.content, f.pos, data[..a.bw]) && f'.pos == f.pos + a.bw
        && (a.bw < |data| ==> !f'.space || (a.bw == 0 && f.pos + |data| >= 0x1_0000_0000))
    case Seeking(target) =>
      var t := if !canWrite then Least(target, |f.content|) else target;
      && a == Done && f'.pos <= t && (f'.pos < t ==> canWrite && !f'.space)
      && f.content <= f'.content && |f'.content| == if f'.pos > |f.content| then f'.pos else |f.content|
    case Cutting =>
      if !canWrite then a == Denied && f'.content == f.content && f'.pos == f.pos
      else a == Done && f'.content == f.content[..f.pos] && f'.pos == f.pos
  }

  ghost function Now(f: Fil): (r: File)
    requires f.Valid() && f.err == FR_OK
    reads f, f.fs, f.fs.win, f.buf
    ensures r.pos <= |r.content|
  {
    File(f.Content(), f.fptr, !NoFree(FatOf(f.fs)))
  }

  /** Every step of a run is allowed. */
  ghost predicate IsRun(states: seq<File>, calls: seq<Call>, canRead: bool, canWrite: bool, answers: seq<Answer>) {
    && |states| == |answers| + 1 && |answers| <= |calls|
    && (forall i :: 0 <= i < |states| ==> states[i].pos <= |states[i].content|)
    && (forall i :: 0 <= i < |answers| ==> Allows(states[i], calls[i], canRead, canWrite, answers[i], states[i + 1]))
  }

  /** Cutting a chain leaves no bad entry that was not there. */
  lemma CutNoBad(f: seq<nat>, f': seq<nat>, ch: seq<nat>, n: nat)
    requires Cut(f, f', ch, n) && NoBad(f)
    ensures NoBad(f')
  {
    forall c | 2 <= c < |f'|
      ensures f'[c] != 1
    {
      if c in ch {
        var i :| 0 <= i < |ch| && ch[i] == c;
        if i < n {
          assert c == ch[..n][i];
          ChainUsed(f', ch[..n], c);
        }
      }
    }
  }

  /** One call. It fails only after a device failure or on a FAT with a bad entry. */
  method Perform(f: Fil, c: Call) returns (res: FResult, a: Answer)
    requires f.Valid() && f.err == FR_OK && (c.Writing? ==> |c.data| < 0x1_0000_0000)
    modifies f, f.buf, f.fs, f.fs.win
    ensures f.Valid() && Kept(f.fs)
    ensures res in {FR_OK, FR_DENIED} ==> f.err == FR_OK && Allows(old(Now(f)), c, f.canRead, f.canWrite, a, Now(f))
    ensures res in {FR_OK, FR_DENIED} && NoBad(old(FatOf(f.fs))) ==> NoBad(FatOf(f.fs))
    ensures res !in {FR_OK, FR_DENIED} ==> f.fs.faults > old(f.fs.faults) || !NoBad(old(FatOf(f.fs)))
  {
    hide FatFs.Valid, Fil.Inv, Fil.At, Fil.Content, Spliced, NoFree, NoBad, Fat, Cut;
    a := Done;
    match c {
      case Reading(count) =>
        var data;
        res, data := f.Read(count);
        a := if res == FR_DENIED then Denied else Data(data);
      case Writing(data) =>
        var bw;
        res, bw := f.Write(data);
        a := if res == FR_DENIED then Denied else Count(bw);
      case Seeking(target) =>
        res := f.Lseek(target);
      case Cutting =>
        ghost var fat, ch := FatOf(f.fs), f.chain;
        res := f.Truncate();
        if res == FR_OK && FatOf(f.fs) != fat && NoBad(fat) {
          CutNoBad(fat, FatOf(f.fs), ch, |f.chain|);
        }
        a := if res == FR_DENIED then Denied else Done;
    }
  }

  /**
    Any run of calls: as long as the device does not fail and the FAT has no bad entry, all of them are answered, and
    answers and states are those of a byte string with a position.
   */
  method Run(f: Fil, calls: seq<Call>) returns (answers: seq<Answer>, ghost states: seq<File>)
    requires f.Valid() && f.err == FR_OK && forall i :: 0 <= i < |calls| && calls[i].Writing? ==> |calls[i].data| < 0x1_0000_0000
    modifies f, f.buf, f.fs, f.fs.win
    ensures f.Valid() && Kept(f.fs) && IsRun(states, calls, f.canRead, f.canWrite, answers) && states[0] == old(Now(f))
    ensures f.fs.faults == old(f.fs.faults) && NoBad(old(FatOf(f.fs))) ==> |answers| == |calls|
    ensures |answers| == |calls| ==> f.err == FR_OK && states[|calls|] == Now(f)
  {
    hide FatFs.Valid, Fil.Inv, Fil.At, Fil.Content, NoFree, NoBad, Fat, Allows;
    answers, states := [], [Now(f)];
    for i := 0 to |calls|
      invariant f.Valid() && f.err == FR_OK && Kept(f.fs) && |answers| == i
      invariant IsRun(states, calls, f.canRead, f.canWrite, answers) && states[0] == old(Now(f)) && states[i] == Now(f)
      invariant NoBad(old(FatOf(f.fs))) ==> NoBad(FatOf(f.fs))
    {
      var res, a := Perform(f, calls[i]);
      if res != FR_OK && res != FR_DENIED {
        return;
      }
      answers, states := answers + [a], states + [Now(f)];
    }
  }

  // ----- what runs mean for a byte -----

  /** A call at a position that leaves byte x of the file alone. */
  predicate Spares(f: File, c: Call, x: nat) {
    match c
    case Reading(_) => true
    case Writing(data) => x < f.pos || f.pos + |data| <= x
    case Seeking(_) => true
    case Cutting => x < f.pos
  }

  lemma StepSpares(f: File, c: Call, canRead: bool, canWrite: bool, a: Answer, f': File, x: nat)
    requires f.pos <= |f.content| && Allows(f, c, canRead, canWrite, a, f') && x < |f.content| && Spares(f, c, x)
    ensures x < |f'.content| && f'.content[x] == f.content[x]
  {
  }

  /** A byte that no call of a run writes or cuts off is the same at its end. */
  lemma {:induction false} ByteStays(states: seq<File>, calls: seq<Call>, canRead: bool, canWrite: bool, answers: seq<Answer>,
                                     lo: nat, hi: nat, x: nat)
    requires IsRun(states, calls, canRead, canWrite, answers) && lo <= hi < |states| && x < |states[lo].content|
    requires forall i :: lo <= i < hi ==> Spares(states[i], calls[i], x)
    ensures x < |states[hi].content| && states[hi].content[x] == states[lo].content[x]
    decreases hi
  {
    if lo < hi {
      ByteStays(states, calls, canRead, canWrite, answers, lo, hi - 1, x);
      assert Allows(states[hi - 1], calls[hi - 1], canRead, canWrite, answers[hi - 1], states[hi - 1 + 1]);
      StepSpares(states[hi - 1], calls[hi - 1], canRead, canWrite, answers[hi - 1], states[hi], x);
    }
  }

  /** Step i writes byte x, no later step writes it or cuts it off, and step j reads it: the read returns what was written. */
  lemma ReadsLastWritten(states: seq<File>, calls: seq<Call>, canRead: bool, canWrite: bool, answers: seq<Answer>,
                         i: nat, j: nat, x: nat)
    requires IsRun(states, calls, canRead, canWrite, answers) && i < j < |answers| && canRead && canWrite
    requires calls[i].Writing? && answers[i].Count? && states[i].pos <= x < states[i].pos + answers[i].bw
    requires forall k :: i < k < j ==> Spares(states[k], calls[k], x)
    requires calls[j].Reading? && states[j].pos <= x < states[j].pos + calls[j].count
    ensures answers[j].Data? && x - states[j].pos < |answers[j].data|
    ensures x - states[i].pos < |calls[i].data| && answers[j].data[x - states[j].pos] == calls[i].data[x - states[i].pos]
  {
    hide IsRun;
    StepAllowed(states, calls, canRead, canWrite, answers, i);
    ByteStays(states, calls, canRead, canWrite, answers, i + 1, j, x);
    StepAllowed(states, calls, canRead, canWrite, answers, j);
  }

  lemma StepAllowed(states: seq<File>, calls: seq<Call>, canRead: bool, canWrite: bool, answers: seq<Answer>, i: nat)
    requires IsRun(states, calls, canRead, canWrite, answers) && i < |answers|
    ensures |states| == |answers| + 1 && |answers| <= |calls| && states[i].pos <= |states[i].content|
    ensures Allows(states[i], calls[i], canRead, canWrite, answers[i], states[i + 1])
  {
  }
}
