/** The pipe: a ring of bytes between two word counters, with readers and writers
    that sleep. */
module Pipe {
  import opened Words

  /** `i` bytes of the caller's buffer have been written so far. */
  datatype WriteOutcome =
    | Wrote(i: nat)         // all of them; returns n
    | WriterSleeps(i: nat)  // asleep on &nwrite
    | WriteFailed(i: nat)   // returns -1

  datatype ReadOutcome =
    | Read(bytes: seq<int>)
    | ReaderSleeps
    | ReadFailed

  /** How many of `n` bytes asked for are there to read. */
  function AtMost(n: int, there: int): int { if n <= 0 then 0 else if n <= there then n else there }

  /** A call of a method below is what one process does while it holds the pipe's
      lock: from acquiring it, or waking up inside `sleep`, until it sleeps or
      releases it.  The runs of a pipe are the sequences of these calls by any
      processes. */
  class PipeState {
    const size: nat
    const word: nat
    const laps: nat
    var data: array<int>
    /** Counters modulo `word`. */
    var nread: int
    var nwrite: int
    var readopen: bool
    var writeopen: bool
    /** Processes asleep on &nread and &nwrite. */
    var readersAsleep: set<nat>
    var writersAsleep: set<nat>
    ghost var written: seq<int>
    ghost var consumed: seq<int>

    /** What was read is a prefix of what was written; the rest is in the ring. */
    ghost predicate Stream()
      reads this, data
    {
      && 0 < size < word && word == laps * size && data.Length == size
      && consumed <= written && |written| - |consumed| <= size
      && nread == |consumed| % word && nwrite == |written| % word
      && forall k :: |consumed| <= k < |written| ==> data[k % size] == written[k]
    }

    /** No process sleeps that has something to do. */
    ghost predicate Awake()
      reads this
    {
      && (readersAsleep != {} ==> |written| == |consumed| && writeopen && readopen)
      && (writersAsleep != {} ==> |written| - |consumed| == size && readopen && writeopen)
    }

    constructor (size: nat, word: nat, laps: nat)
      requires 0 < size < word && word == laps * size
      ensures Stream() && Awake() && fresh(data)
      ensures this.size == size && this.word == word && this.laps == laps
      ensures readopen && writeopen && written == [] && consumed == []
      ensures readersAsleep == {} && writersAsleep == {}
    {
      this.size, this.word, this.laps := size, word, laps;
      data := new int[size];
      nread, nwrite, readopen, writeopen := 0, 0, true, true;
      readersAsleep, writersAsleep, written, consumed := {}, {}, [], [];
    }

    /** The test `nwrite == nread + PIPESIZE` on words means the ring is full. */
    lemma FullTest()
      requires Stream()
      ensures nwrite == (nread + size) % word <==> |written| - |consumed| == size
    {
      AddWord(|consumed|, size, word);
      if nwrite == (nread + size) % word {
        SameWord(|written|, |consumed| + size, word);
      }
    }

    /** The test `nread == nwrite` on words means the ring is empty. */
    lemma EmptyTest()
      requires Stream()
      ensures nread == nwrite <==> |written| == |consumed|
    {
      if nread == nwrite { SameWord(|written|, |consumed|, word); }
    }

    method PutByte(b: int)
      requires Stream() && |written| - |consumed| < size
      modifies this`nwrite, this`written, data
      ensures Stream() && written == old(written) + [b]
    {
      ghost var n := |written|;
      RingIndex(n, word, size, laps);
      forall k | |consumed| <= k < n ensures k % size != n % size {
        if k % size == n % size { SameWord(n, k, size); }
      }
      data[nwrite % size] := b;
      Increment(n, word);
      nwrite := (nwrite + 1) % word;
      written := written + [b];
    }

    method GetByte() returns (b: int)
      requires Stream() && |consumed| < |written|
      modifies this`nread, this`consumed
      ensures Stream() && b == written[|old(consumed)|] && consumed == old(consumed) + [b]
    {
      RingIndex(|consumed|, word, size, laps);
      b := data[nread % size];
      Increment(|consumed|, word);
      nread := (nread + 1) % word;
      consumed := consumed + [b];
    }

    /** pipewrite from byte `start`, in process `pid`.  A process that sleeps without
        need is left exactly by a killed writer of more bytes than fit, while a reader
        sleeps: it writes, gives up and does not wake the reader. */
    method Write(pid: nat, addr: seq<int>, start: nat, killed: bool) returns (r: WriteOutcome)
      requires Stream() && writeopen && start <= |addr| && pid !in writersAsleep
      modifies this`nwrite, this`written, this`readersAsleep, this`writersAsleep, data
      ensures Stream() && start <= r.i <= |addr| && written == old(written) + addr[start..r.i]
      ensures r.Wrote? <==> r.i == |addr|
      ensures !r.Wrote? ==> |written| - |consumed| == size && (r.WriteFailed? <==> !readopen || killed)
      ensures writersAsleep == old(writersAsleep) + if r.WriterSleeps? then {pid} else {}
      ensures readersAsleep == if r.WriteFailed? then old(readersAsleep) else {}
      ensures old(Awake()) ==> (Awake() <==> !(killed && old(readersAsleep) != {} && |addr| - start > size))
    {
      var i := start;
      while i < |addr|
        invariant start <= i <= |addr| && Stream()
        invariant written == old(written) + addr[start..i]
        invariant readersAsleep == old(readersAsleep) && writersAsleep == old(writersAsleep)
      {
        FullTest();
        if nwrite == (nread + size) % word {
          if !readopen || killed {
            return WriteFailed(i);
          }
          readersAsleep := {};
          writersAsleep := writersAsleep + {pid};
          return WriterSleeps(i);
        }
        assert addr[start..i + 1] == addr[start..i] + [addr[i]];
        PutByte(addr[i]);
        i := i + 1;
      }
      readersAsleep := {};
      return Wrote(i);
    }

    /** piperead of `n` bytes in process `pid`. */
    method ReadBytes(pid: nat, n: int, killed: bool) returns (r: ReadOutcome)
      requires Stream() && readopen && pid !in readersAsleep
      modifies this`nread, this`consumed, this`readersAsleep, this`writersAsleep
      ensures Stream() && (old(Awake()) ==> Awake())
      ensures r.Read? <==> |old(consumed)| < |written| || !writeopen
      ensures r.Read? ==>
        && consumed == old(consumed) + r.bytes
        && |r.bytes| == AtMost(n, |written| - |old(consumed)|)
        && writersAsleep == {} && readersAsleep == old(readersAsleep)
      ensures !r.Read? ==>
        && |written| == |old(consumed)| && writeopen && consumed == old(consumed)
        && (r.ReadFailed? <==> killed) && writersAsleep == old(writersAsleep)
        && readersAsleep == old(readersAsleep) + if r.ReaderSleeps? then {pid} else {}
    {
      EmptyTest();
      if nread == nwrite && writeopen {
        if killed {
          return ReadFailed;
        }
        readersAsleep := readersAsleep + {pid};
        return ReaderSleeps;
      }
      var bytes := [];
      while |bytes| < n
        invariant Stream() && consumed == old(consumed) + bytes
        invariant |bytes| <= if n <= 0 then 0 else n
        invariant readersAsleep == old(readersAsleep)
      {
        EmptyTest();
        if nread == nwrite { break; }
        var b := GetByte();
        bytes := bytes + [b];
      }
      writersAsleep := {};
      return Read(bytes);
    }

    /** pipeclose.  A process asleep in the pipe holds a file reference to its end, so
        that end is not the one being closed. */
    method Close(writable: bool)
      requires Stream() && (if writable then writersAsleep == {} else readersAsleep == {})
      modifies this`readopen, this`writeopen, this`readersAsleep, this`writersAsleep
      ensures Stream() && (old(Awake()) ==> Awake())
      ensures writable ==>
        && !writeopen && readopen == old(readopen)
        && readersAsleep == {} && writersAsleep == old(writersAsleep)
      ensures !writable ==>
        && !readopen && writeopen == old(writeopen)
        && writersAsleep == {} && readersAsleep == old(readersAsleep)
    {
      if writable {
        writeopen := false;
        readersAsleep := {};
      } else {
        readopen := false;
        writersAsleep := {};
      }
    }

    /** kill takes a process out of its sleep. */
    method Kill(pid: nat)
      requires Stream()
      modifies this`readersAsleep, this`writersAsleep
      ensures Stream() && (old(Awake()) ==> Awake())
      ensures readersAsleep == old(readersAsleep) - {pid} && writersAsleep == old(writersAsleep) - {pid}
    {
      readersAsleep := readersAsleep - {pid};
      writersAsleep := writersAsleep - {pid};
    }
  }

  /** The failing case: a reader sleeps on an empty pipe, a killed process writes more
      bytes than fit, and the reader sleeps on a full ring. */
  method LostWakeup(size: nat, word: nat, laps: nat, addr: seq<int>, reader: nat, writer: nat)
    returns (p: PipeState, asleep: ReadOutcome, failed: WriteOutcome)
    requires 0 < size < word && word == laps * size && |addr| > size
    ensures fresh(p) && p.size == size && p.Stream() && !p.Awake()
    ensures asleep == ReaderSleeps && failed == WriteFailed(size)
    ensures p.readersAsleep == {reader} && p.written == addr[..size] && p.consumed == []
  {
    p := new PipeState(size, word, laps);
    asleep := p.ReadBytes(reader, 1, false);
    assert reader in p.readersAsleep && p.consumed == [];
    failed := p.Write(writer, addr, 0, true);
    assert p.written == addr[..failed.i] && failed.i == size;
    assert reader in p.readersAsleep;
  }
}
