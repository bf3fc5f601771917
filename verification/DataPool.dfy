/** The class data_pool: the ring of RingProtocol with its slots in an array. */
module DataPool {
  import opened Wrappers
  import opened RingProtocol

  class DataPool {
    var blank: nat
    var data: nat
    var index1: nat
    var index2: nat
    const pool: array<string>
    // Where the one writer and the one reader stand, and what passed through.
    var writer: WriterPc
    var reader: ReaderPc
    ghost var written: seq<string>
    ghost var read: seq<string>

    ghost function View(): State
      reads this, pool
    {
      State(blank, data, index1, index2, pool[..], writer, reader, written, read)
    }

    constructor (cap: nat)
      ensures pool.Length == cap && fresh(pool) && Init(View())
    {
      pool := new string[cap](_ => "");
      blank, data, index1, index2 := cap, 0, 0, 0;
      writer, reader := WWait, RWait;
      written, read := [], [];
    }

    // One statement of getdata.
    method WriterStep(item: string) returns (ran: bool)
      modifies this, pool
      ensures ran ==> WriterNext(old(View()), item) == Some(View())
      ensures !ran ==> WriterNext(old(View()), item) == None && View() == old(View())
    {
      match writer {
        case WWait =>
          if blank == 0 { return false; }
          blank, writer := blank - 1, WStore(item);
        case WStore(v) =>
          if index1 >= pool.Length { return false; }
          pool[index1] := v;
          written, writer := written + [v], WAdvance;
        case WAdvance =>
          index1, writer := index1 + 1, WWrap;
        case WWrap =>
          if pool.Length == 0 { return false; }
          index1, writer := index1 % pool.Length, WPost;
        case WPost =>
          data, writer := data + 1, WWait;
      }
      return true;
    }

    // One statement of putdata; `taken` is what the statement reads from the pool.
    method ReaderStep() returns (ran: bool, taken: Option<string>)
      modifies this
      ensures ran ==> ReaderNext(old(View())) == Some(View())
      ensures !ran ==> ReaderNext(old(View())) == None && View() == old(View())
      ensures read == old(read) + if taken.Some? then [taken.value] else []
      ensures taken.Some? <==> ran && old(reader).RTake?
    {
      taken := None;
      match reader {
        case RWait =>
          if data == 0 { return false, None; }
          data, reader := data - 1, RTake;
        case RTake =>
          if index2 >= pool.Length { return false, None; }
          taken := Some(pool[index2]);
          read, reader := read + [pool[index2]], RAdvance;
        case RAdvance =>
          index2, reader := index2 + 1, RWrap;
        case RWrap =>
          if pool.Length == 0 { return false, None; }
          index2, reader := index2 % pool.Length, RPost;
        case RPost =>
          blank, reader := blank + 1, RWait;
      }
      ran := true;
    }

    // A whole uninterrupted getdata; it returns false, with nothing changed, where
    // sem_wait(blank) would block.
    method GetData(instr: string) returns (done: bool)
      requires Inv(View()) && writer == WWait
      modifies this, pool
      ensures Inv(View()) && writer == WWait && reader == old(reader)
      ensures done == (old(blank) > 0)
      ensures !done ==> View() == old(View())
      ensures done ==> Queue(View()) == old(Queue(View())) + [instr] && read == old(read)
    {
      ghost var before := View();
      done := WriterStep(instr);
      if done {
        WriterKeepsInv(before, instr);
        ghost var ready := View();
        done := WriterStep(instr);
        WriterKeepsInv(ready, instr);
        FinishWrite(instr);
      }
    }

    // From the store to the sem_post: nothing here can block.
    method FinishWrite(instr: string)
      requires Inv(View()) && writer == WAdvance && pool.Length > 0
      modifies this, pool
      ensures Inv(View()) && writer == WWait && reader == old(reader)
      ensures written == old(written) && read == old(read)
    {
      while writer != WWait
        invariant Inv(View()) && (writer.WAdvance? || writer.WWrap? || writer.WPost? || writer.WWait?)
        invariant reader == old(reader) && written == old(written) && read == old(read)
        decreases if writer.WAdvance? then 3 else if writer.WWrap? then 2 else if writer.WPost? then 1 else 0
      {
        ghost var before := View();
        var ran := WriterStep(instr);
        WriterKeepsInv(before, instr);
      }
    }

    // A whole uninterrupted putdata; None, with nothing changed, where sem_wait(data) would
    // block.
    method PutData() returns (outstr: Option<string>)
      requires Inv(View()) && reader == RWait
      modifies this
      ensures Inv(View()) && reader == RWait && writer == old(writer)
      ensures outstr.Some? <==> old(data) > 0
      ensures outstr.None? ==> View() == old(View())
      ensures outstr.Some? ==>
                && old(Queue(View())) != [] && outstr.value == old(Queue(View()))[0]
                && Queue(View()) == old(Queue(View()))[1..] && written == old(written)
    {
      ghost var before := View();
      var ran;
      ran, outstr := ReaderStep();
      if ran {
        ReaderKeepsInv(before);
        ghost var ready := View();
        ran, outstr := ReaderStep();
        ReaderKeepsInv(ready);
        FinishRead();
      }
    }

    // From the take to the sem_post: nothing here can block.
    method FinishRead()
      requires Inv(View()) && reader == RAdvance && pool.Length > 0
      modifies this
      ensures Inv(View()) && reader == RWait && writer == old(writer)
      ensures written == old(written) && read == old(read)
    {
      while reader != RWait
        invariant Inv(View()) && (reader.RAdvance? || reader.RWrap? || reader.RPost? || reader.RWait?)
        invariant writer == old(writer) && written == old(written) && read == old(read)
        decreases if reader.RAdvance? then 3 else if reader.RWrap? then 2 else if reader.RPost? then 1 else 0
      {
        ghost var before := View();
        var ran, _ := ReaderStep();
        ReaderKeepsInv(before);
      }
    }
  }
}
