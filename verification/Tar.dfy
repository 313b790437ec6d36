/** The archiver: blocks gathered into tape records of any size, files written as a
    header and padded content, and the archive read back. */
module Tar {
  import opened Bytes
  import opened TarFormat

  /** Blocks needed for this many bytes. */
  function BlocksFor(n: nat): nat { (n + (TBLOCK - 1)) / TBLOCK }

  /** Copies s into an array. */
  method CopyIn(a: array<byte>, off: nat, s: seq<byte>)
    requires off + |s| <= a.Length
    modifies a
    ensures a[..] == Overlay(old(a[..]), off, s)
  {
    for i := 0 to |s|
      invariant a[..] == Overlay(old(a[..]), off, s[..i])
    {
      a[off + i] := s[i];
    }
    assert s[..|s|] == s;
  }

  /** An archive file and the buffer in which a record of it is gathered or read. */
  class Tape {
    const tbuf: array<byte>
    var nblock: nat
    var recno: nat
    var first: bool
    var data: seq<byte>
    var pos: nat
    /** How many blocks have been read. */
    ghost var taken: nat

    /** An empty archive, to be written in records of nblock blocks. */
    constructor Create(nblock: nat)
      requires nblock > 0
      ensures Writing() && fresh(tbuf) && Sent() == [] && recno < this.nblock == nblock
    {
      this.nblock := nblock;
      tbuf := new byte[TBLOCK * nblock];
      recno, first, data, pos, taken := 0, false, [], 0, 0;
    }

    ghost predicate Writing()
      reads this
    {
      nblock > 0 && tbuf.Length == TBLOCK * nblock && recno <= nblock && |data| % TBLOCK == 0
    }

    /** All that was written so far. */
    ghost function Sent(): seq<byte>
      requires Writing()
      reads this, tbuf
    {
      data + tbuf[..TBLOCK * recno]
    }

    /** Writes out a full record. */
    method PutRecord()
      requires Writing() && recno == nblock
      modifies this`recno, this`data
      ensures Writing() && recno == 0 && Sent() == old(Sent())
    {
      assert tbuf[..] == tbuf[..TBLOCK * recno];
      data := data + tbuf[..];
      recno := 0;
      assert data + tbuf[..0] == data;
    }

    /** Appends one block; a full record goes out. */
    method WriteTape(buffer: seq<byte>)
      requires Writing() && |buffer| == TBLOCK
      modifies this`first, this`recno, this`data, tbuf
      ensures Writing() && recno < nblock && Sent() == old(Sent()) + buffer
    {
      first := true;
      if recno >= nblock {
        PutRecord();
      }
      ghost var t, off := tbuf[..], TBLOCK * recno;
      CopyIn(tbuf, TBLOCK * recno, buffer);
      recno := recno + 1;
      OverlayGrows(t, off, buffer);
      Assoc(data, t[..off], buffer);
      if recno >= nblock {
        PutRecord();
      }
    }

    /** Writes out the buffer, whatever its tail holds. */
    method FlushTape()
      requires Writing()
      modifies this`data
      ensures old(Sent()) <= data && |data| % TBLOCK == 0
    {
      assert tbuf[..TBLOCK * recno] <= tbuf[..];
      data := data + tbuf[..];
    }

    /** An archive to be read with a buffer of nblock blocks. */
    constructor Open(nblock: nat, data: seq<byte>)
      requires nblock > 0
      ensures Reading() && fresh(tbuf) && this.data == data && taken == 0
    {
      this.nblock := nblock;
      tbuf := new byte[TBLOCK * nblock];
      recno, first, this.data, pos, taken := 0, false, data, 0, 0;
    }

    /** The buffer holds the record that starts at byte TBLOCK * (taken - recno). */
    ghost predicate Reading()
      reads this, tbuf
    {
      && 0 < nblock && TBLOCK * nblock <= tbuf.Length && pos <= |data|
      && (!first ==> pos == 0 && taken == 0)
      && (first ==> recno <= nblock && recno <= taken && Holds(TBLOCK * (taken - recno)))
    }

    /** The buffer holds what the archive has from this byte on, up to a whole record. */
    ghost predicate Holds(start: nat)
      requires TBLOCK * nblock <= tbuf.Length && pos <= |data|
      reads this, tbuf
    {
      start <= pos && (pos == start + TBLOCK * nblock || pos == |data| < start + TBLOCK * nblock)
      && tbuf[..pos - start] == data[start..pos]
    }

    /** Reads up to n bytes of the file into the buffer. */
    method BRead(n: nat) returns (i: nat)
      requires n <= tbuf.Length && pos <= |data|
      modifies this`pos, tbuf
      ensures i == pos - old(pos) && pos <= |data| && (i == n || (i < n && pos == |data|))
      ensures tbuf[..i] == data[old(pos)..pos]
    {
      i := if n <= |data| - pos then n else |data| - pos;
      CopyIn(tbuf, 0, data[pos..pos + i]);
      pos := pos + i;
    }

    /** Reads a record into the buffer. The first read finds out how long a record is;
        it fails when the archive does not consist of whole blocks. */
    method ReadRecord() returns (ok: bool)
      requires Reading() && (first ==> recno == nblock) && TBLOCK * (taken + 1) <= |data|
      modifies this`nblock, this`recno, this`pos, tbuf
      ensures |data| % TBLOCK == 0 ==> ok
      ensures ok ==> 0 < nblock && TBLOCK * nblock <= tbuf.Length && pos <= |data|
      ensures ok ==> recno == 0 && Holds(TBLOCK * taken)
    {
      ghost var start := pos;
      var i := BRead(TBLOCK * nblock);
      if !first {
        if i % TBLOCK != 0 {
          return false;
        }
        i := i / TBLOCK;
        if i != nblock {
          nblock := i;
        }
      }
      recno := 0;
      return true;
    }

    /** The block that comes next is in the buffer. */
    lemma BlockHeld()
      requires Reading() && first && recno < nblock && TBLOCK * (taken + 1) <= |data|
      ensures TBLOCK * recno + TBLOCK <= tbuf.Length
      ensures tbuf[TBLOCK * recno..TBLOCK * recno + TBLOCK] == data[TBLOCK * taken..TBLOCK * taken + TBLOCK]
    {
      var start, off := TBLOCK * (taken - recno), TBLOCK * recno;
      assert off + TBLOCK <= TBLOCK * nblock && start + off == TBLOCK * taken;
      PartOf(tbuf[..], data, start, pos - start, off);
    }

    /** The next block. */
    method ReadTape() returns (block: seq<byte>, ok: bool)
      requires Reading() && TBLOCK * (taken + 1) <= |data|
      modifies this`nblock, this`recno, this`first, this`pos, this`taken, tbuf
      ensures |data| % TBLOCK == 0 ==> ok
      ensures ok ==> Reading() && taken == old(taken) + 1 && block == data[TBLOCK * old(taken)..TBLOCK * old(taken) + TBLOCK]
    {
      ok := NeedRecord();
      if !ok {
        return [], false;
      }
      block := TakeBlock();
    }

    /** Reads a record if the buffer has been used up. */
    method NeedRecord() returns (ok: bool)
      requires Reading() && TBLOCK * (taken + 1) <= |data|
      modifies this`nblock, this`recno, this`first, this`pos, tbuf
      ensures |data| % TBLOCK == 0 ==> ok
      ensures ok ==> Reading() && first && recno < nblock
    {
      if recno >= nblock || !first {
        ok := ReadRecord();
        if !ok {
          return;
        }
        assert TBLOCK * (taken - recno) == TBLOCK * taken;
      }
      first := true;
      ok := true;
    }

    /** Takes the next block out of the buffer. */
    method TakeBlock() returns (block: seq<byte>)
      requires Reading() && first && recno < nblock && TBLOCK * (taken + 1) <= |data|
      modifies this`recno, this`taken
      ensures Reading() && taken == old(taken) + 1 && block == data[TBLOCK * old(taken)..TBLOCK * old(taken) + TBLOCK]
    {
      BlockHeld();
      block := tbuf[TBLOCK * recno..TBLOCK * recno + TBLOCK];
      recno := recno + 1;
      taken := taken + 1;
    }
  }

  lemma OverlayGrows(t: seq<byte>, off: nat, s: seq<byte>)
    requires off + |s| <= |t|
    ensures Overlay(t, off, s)[..off + |s|] == t[..off] + s
  {
  }

  /** A block of the buffer is the block of the archive that it was read from. */
  lemma PartOf(t: seq<byte>, data: seq<byte>, start: nat, n: nat, off: nat)
    requires n <= |t| && start + n <= |data| && t[..n] == data[start..start + n] && off + TBLOCK <= n
    ensures t[off..off + TBLOCK] == data[start + off..start + off + TBLOCK]
  {
    var block := t[off..off + TBLOCK];
    assert block == t[..n][off..off + TBLOCK];
    AtInside(data, start, t[..n], off, block);
  }

  // ---------- what an archive holds ----------

  /** These bytes are the entry of a file: its header, then its content, padded to
      whole blocks with anything. */
  ghost predicate IsEntry(e: seq<byte>, f: File) {
    && |e| == TBLOCK + TBLOCK * BlocksFor(|f.content|)
    && At(e, 0, Header(f)) && At(e, TBLOCK, f.content)
  }

  /** The entries of a list of files. */
  ghost predicate AreEntries(es: seq<seq<byte>>, fs: seq<File>) {
    |es| == |fs| && forall i :: 0 <= i < |es| ==> IsEntry(es[i], fs[i])
  }

  /** The files whose names fit into a header. */
  function Nameable(fs: seq<File>): seq<File> {
    if fs == [] then [] else Nameable(fs[..|fs| - 1]) + if |fs[|fs| - 1].name| < NAMSIZ then [fs[|fs| - 1]] else []
  }

  /** An archive of these files: their entries, then an empty block, then anything. */
  ghost predicate IsArchive(data: seq<byte>, es: seq<seq<byte>>, fs: seq<File>) {
    |data| % TBLOCK == 0 && AreEntries(es, fs) && At(data, 0, Flatten(es) + Repeat(TBLOCK, 0))
  }

  /** An entry byte by byte: its header, the content from byte 512 on, and less than a
      block of padding up to a multiple of 512. */
  ghost predicate OnTape(e: seq<byte>, f: File) {
    && |e| % 512 == 0 && 512 + |f.content| <= |e| < 512 + |f.content| + 512
    && HeaderOnTape(e[..512], f) && e[512..512 + |f.content|] == f.content
  }

  ghost predicate AllOnTape(es: seq<seq<byte>>, fs: seq<File>) {
    |es| == |fs| && forall i {:trigger es[i]} :: 0 <= i < |es| ==> OnTape(es[i], fs[i])
  }

  lemma EntryOnTape(e: seq<byte>, f: File)
    requires IsEntry(e, f) && Regular(f) && |f.name| < NAMSIZ
    ensures OnTape(e, f)
  {
    HeaderLayout(f);
    WholeBlocks(|f.content|, BlocksFor(|f.content|), |e|);
    HeadOfEntry(e, Header(f), f);
  }

  lemma WholeBlocks(n: nat, b: nat, size: nat)
    requires b == (n + 511) / 512 && size == 512 + 512 * b
    ensures size % 512 == 0 && 512 + n <= size < 512 + n + 512
  {
    assert n + 511 == 512 * b + (n + 511) % 512;
    assert size == 512 * (b + 1);
  }

  lemma HeadOfEntry(e: seq<byte>, h: seq<byte>, f: File)
    requires At(e, 0, h) && |h| == 512 && HeaderOnTape(h, f)
    ensures |e| >= 512 && HeaderOnTape(e[..512], f)
  {
    assert e[..512] == e[0..0 + |h|] == h;
  }

  lemma EntriesOnTape(es: seq<seq<byte>>, fs: seq<File>)
    requires AreEntries(es, fs) && Extractable(fs)
    ensures AllOnTape(es, fs)
  {
    forall i | 0 <= i < |es| ensures OnTape(es[i], fs[i]) {
      EntryOnTape(es[i], fs[i]);
    }
  }

  /** Which files those are: one by one, in order, those with names below 100 bytes. */
  lemma {:induction false} NameableParts(a: seq<File>, b: seq<File>)
    ensures Nameable(a + b) == Nameable(a) + Nameable(b)
  {
    if b == [] {
      assert a + b == a;
    } else {
      assert (a + b)[..|a + b| - 1] == a + b[..|b| - 1];
      NameableParts(a, b[..|b| - 1]);
    }
  }

  lemma NameableOne(f: File)
    ensures Nameable([f]) == if |f.name| < 100 then [f] else []
  {
    assert [f][..0] == [];
  }

  // ---------- writing ----------

  class Archiver {
    const dblock: array<byte>
    const tape: Tape

    constructor (tape: Tape)
      ensures this.tape == tape && fresh(dblock) && dblock.Length == TBLOCK
    {
      dblock := new byte[TBLOCK];
      this.tape := tape;
    }

    /** The archiver's memory is all separate. */
    ghost predicate Valid()
    {
      dblock.Length == TBLOCK && dblock != tape.tbuf
    }

    /** Clears the header and prints the numbers into it. */
    method ToModes(f: File)
      requires dblock.Length == TBLOCK && Regular(f)
      modifies dblock
      ensures dblock[..] == Numbers(f)
    {
      for i := 0 to TBLOCK
        invariant forall j :: 0 <= j < i ==> dblock[j] == 0
      {
        dblock[i] := 0;
      }
      assert dblock[..] == Repeat(TBLOCK, 0);
      SizesOfTexts(f);
      CopyIn(dblock, MODE, Text(6, f.mode) + [0]);
      CopyIn(dblock, UID, Text(6, f.uid) + [0]);
      CopyIn(dblock, GID, Text(6, 0) + [0]);
      CopyIn(dblock, SIZE, Text(11, |f.content|) + [0]);
      CopyIn(dblock, MTIME, Text(11, f.mtime) + [0]);
    }

    /** Blanks the checksum field and adds up the bytes of the header. */
    method Checksum() returns (sum: nat)
      requires dblock.Length == TBLOCK
      modifies dblock
      ensures dblock[..] == Blank(old(dblock[..])) && sum == Sum(dblock[..])
    {
      CopyIn(dblock, CHKSUM, Repeat(8, SP));
      sum := 0;
      ghost var h := dblock[..];
      for i := 0 to TBLOCK
        invariant sum + Sum(h[i..]) == Sum(h)
      {
        assert h[i..][1..] == h[i + 1..];
        sum := sum + dblock[i] as int;
      }
    }

    /** Writes an empty block. */
    method PutEmpty()
      requires Valid() && tape.Writing()
      modifies tape, tape.tbuf
      ensures tape.Writing() && tape.Sent() == old(tape.Sent()) + Repeat(TBLOCK, 0)
    {
      tape.WriteTape(Repeat(TBLOCK, 0));
    }

    /** Writes the content of a file, the last block padded with what the buffer held. */
    method PutContent(content: seq<byte>) returns (ghost body: seq<byte>)
      requires Valid() && tape.Writing()
      modifies tape, tape.tbuf
      ensures tape.Writing() && tape.Sent() == old(tape.Sent()) + body
      ensures |body| == TBLOCK * BlocksFor(|content|) && content <= body
    {
      var buf := new byte[TBLOCK];
      var blocks := BlocksFor(|content|);
      var done := 0;
      body := [];
      ghost var sent := tape.Sent();
      assert sent + [] == sent;
      while done < |content| && blocks > 0
        invariant tape.Writing() && fresh(buf) && buf.Length == TBLOCK
        invariant tape.Sent() == sent + body && Padding(content, done, body, blocks)
        decreases |content| - done
      {
        var i := if |content| - done < TBLOCK then |content| - done else TBLOCK;
        ghost var was := buf[..];
        CopyIn(buf, 0, content[done..done + i]);
        tape.WriteTape(buf[..]);
        PaddingNext(content, done, body, blocks, i, was, buf[..]);
        Assoc(sent, body, buf[..]);
        body := body + buf[..];
        done := done + i;
        blocks := blocks - 1;
      }
      assert content[..|content|] == content;
    }

    /** Writes a file's entry; a file whose name is too long is passed over. */
    method PutFile(f: File) returns (ghost e: seq<byte>)
      requires Valid() && tape.Writing() && Regular(f)
      modifies dblock, tape, tape.tbuf
      ensures tape.Writing()
      ensures |f.name| >= NAMSIZ ==> tape.Sent() == old(tape.Sent())
      ensures |f.name| < NAMSIZ ==> IsEntry(e, f) && tape.Sent() == old(tape.Sent()) + e
    {
      e := [];
      ghost var sent := tape.Sent();
      ToModes(f);
      if |f.name| >= NAMSIZ {
        return;
      }
      CopyIn(dblock, 0, f.name + [0]);
      var sum := Checksum();
      ChecksumText(f);
      CopyIn(dblock, CHKSUM, Print(6, sum) + [0]);
      ghost var h := dblock[..];
      tape.WriteTape(dblock[..]);
      ghost var body := PutContent(f.content);
      e := h + body;
      Assoc(sent, h, body);
      AtFront(h, body, []);
      assert h + body + [] == h + body;
      assert At(body, 0, f.content);
      AtBehind(h, body, 0, f.content);
    }

    /** These entries, of these files, are what was sent. */
    ghost predicate Archived(es: seq<seq<byte>>, fs: seq<File>)
      reads tape, tape.tbuf
    {
      Valid() && tape.Writing() && AreEntries(es, fs) && tape.Sent() == Flatten(es)
    }

    /** Archives one more file, if its name fits. */
    method ArchiveNext(f: File, ghost es: seq<seq<byte>>, ghost fs: seq<File>) returns (ghost es': seq<seq<byte>>)
      requires Archived(es, fs) && Regular(f)
      modifies dblock, tape, tape.tbuf
      ensures Archived(es', if |f.name| < NAMSIZ then fs + [f] else fs)
    {
      es' := es;
      ghost var e := PutFile(f);
      if |f.name| < NAMSIZ {
        FlattenMore(es, e);
        es' := es + [e];
      }
    }

    /** Archives the files, in order. */
    method DoRep(files: seq<File>) returns (ghost es: seq<seq<byte>>)
      requires Valid() && tape.Writing() && tape.Sent() == [] && (forall i :: 0 <= i < |files| ==> Regular(files[i]))
      modifies dblock, tape, tape.tbuf
      ensures AreEntries(es, Nameable(files)) && AllOnTape(es, Nameable(files))
      ensures Flatten(es) + Repeat(1024, 0) <= tape.data && |tape.data| % 512 == 0
    {
      es := [];
      for i := 0 to |files|
        invariant Archived(es, Nameable(files[..i]))
      {
        NameableNext(files, i);
        assert Nameable(files[..i]) + [] == Nameable(files[..i]);
        es := ArchiveNext(files[i], es, Nameable(files[..i]));
      }
      assert files[..|files|] == files;
      NameableRegular(files);
      EntriesOnTape(es, Nameable(files));
      PutEmpty();
      PutEmpty();
      TwoEmpty(Flatten(es));
      tape.FlushTape();
    }

    // ---------- reading ----------

    /** Reads a header and what it says about the file that follows. */
    method GetDir() returns (entry: Entry)
      requires Valid() && tape.Reading() && TBLOCK * (tape.taken + 1) <= |tape.data| && |tape.data| % TBLOCK == 0
      modifies dblock, tape, tape.tbuf
      ensures tape.Reading() && tape.taken == old(tape.taken) + 1 && tape.data == old(tape.data)
      ensures entry == Meaning(tape.data[TBLOCK * old(tape.taken)..TBLOCK * old(tape.taken) + TBLOCK])
    {
      var block, ok := tape.ReadTape();
      CopyIn(dblock, 0, block);
      assert dblock[..] == block;
      if dblock[0] == 0 {
        return EndOfTape;
      }
      var name, mode, uid := CString(dblock[..]), NumberAt(dblock[..], MODE), NumberAt(dblock[..], UID);
      var size, mtime, chksum := NumberAt(dblock[..], SIZE), NumberAt(dblock[..], MTIME), NumberAt(dblock[..], CHKSUM);
      var link := dblock[LINKFLAG] == ZERO + 1;
      var sum := Checksum();
      if chksum != sum {
        return BadChecksum;
      }
      return Next(name, mode, uid, mtime, size, link);
    }

    /** Some blocks of a file's content have been read, and `blocks` of them are left. */
    ghost predicate InContent(data: seq<byte>, start: nat, size: nat, bytes: int, blocks: nat, content: seq<byte>)
      reads tape, tape.tbuf
    {
      && Valid() && tape.Reading() && tape.data == data && |data| % TBLOCK == 0
      && TBLOCK * tape.taken == start + TBLOCK * BlocksFor(size) - TBLOCK * blocks
      && ContentRead(data, start, size, bytes, blocks, content)
    }

    /** Reads one block of a file's content and gives what belongs to the content. */
    method ReadPart(bytes: int, ghost data: seq<byte>, ghost start: nat, ghost size: nat, ghost blocks: nat, ghost content: seq<byte>)
      returns (part: seq<byte>)
      requires InContent(data, start, size, bytes, blocks, content) && blocks > 0
      modifies tape, tape.tbuf
      ensures InContent(data, start, size, bytes - TBLOCK, blocks - 1, content + part)
    {
      ContentPlace(data, start, size, bytes, blocks, content);
      ghost var at := TBLOCK * tape.taken;
      var buf, ok := tape.ReadTape();
      assert At(data, at, buf);
      var n := if bytes > TBLOCK then TBLOCK else bytes;
      ContentNext(data, start, size, bytes, blocks, content, buf);
      part := buf[..n];
    }

    /** Reads the blocks of a file's content and gives the content without padding. */
    method ReadContent(size: nat) returns (content: seq<byte>)
      requires Valid() && tape.Reading() && |tape.data| % TBLOCK == 0
      requires TBLOCK * tape.taken + TBLOCK * BlocksFor(size) <= |tape.data|
      modifies tape, tape.tbuf
      ensures tape.Reading() && tape.data == old(tape.data)
      ensures TBLOCK * tape.taken == TBLOCK * old(tape.taken) + TBLOCK * BlocksFor(size)
      ensures content == tape.data[TBLOCK * old(tape.taken)..TBLOCK * old(tape.taken) + size]
    {
      var bytes: int := size;
      var blocks: nat := BlocksFor(size);
      ghost var data, start := tape.data, TBLOCK * tape.taken;
      content := [];
      while blocks > 0
        invariant InContent(data, start, size, bytes, blocks, content)
      {
        var part := ReadPart(bytes, data, start, size, blocks, content);
        content := content + part;
        bytes := bytes - TBLOCK;
        blocks := blocks - 1;
      }
    }

    /** What is still to be read are these files, and then the end. */
    ghost predicate Facing(fs: seq<File>)
      reads tape, tape.tbuf
    {
      Valid() && tape.Reading() && |tape.data| % TBLOCK == 0 && Tells(tape.data, TBLOCK * tape.taken, fs)
    }

    /** Extracts the file whose header has just been read: it is file f, from byte `at` on. */
    method ExtractFile(entry: Entry, ghost at: nat, ghost f: File) returns (found: File)
      requires Valid() && tape.Reading() && |tape.data| % TBLOCK == 0 && TBLOCK * tape.taken == at + TBLOCK
      requires FileAt(tape.data, at, f) && entry == Next(f.name, f.mode, f.uid, f.mtime, |f.content|, false)
      modifies tape, tape.tbuf
      ensures tape.Reading() && tape.data == old(tape.data) && TBLOCK * tape.taken == AfterFile(at, f) && found == f
    {
      var content := ReadContent(entry.size);
      return File(entry.name, entry.mode, entry.uid, entry.mtime, content);
    }

    /** Extracts the next file of an archive, if there is one. */
    method ExtractNext(ghost fs: seq<File>) returns (found: bool, f: File)
      requires Facing(fs)
      modifies dblock, tape, tape.tbuf
      ensures found <==> fs != []
      ensures found ==> f == fs[0] && Facing(fs[1..])
    {
      f := File([], 0, 0, 0, []);
      ghost var at := TBLOCK * tape.taken;
      TellsFirst(tape.data, at, fs);
      var entry := GetDir();
      EntryOfFirst(tape.data, at, fs, entry);
      if entry == EndOfTape {
        return false, f;
      }
      if entry.BadChecksum? || entry.name == [] || entry.name[|entry.name| - 1] == SLASH || entry.link {
        assert false;
        return false, f;
      }
      f := ExtractFile(entry, at, fs[0]);
      return true, f;
    }

    /** Extracts every file of an archive. */
    method DoXtract(ghost fs: seq<File>) returns (out: seq<File>)
      requires Facing(fs)
      modifies dblock, tape, tape.tbuf
      ensures out == fs
    {
      out := [];
      ghost var rest := fs;
      while true
        invariant Facing(rest) && out + rest == fs
        decreases |rest|
      {
        var found, f := ExtractNext(rest);
        if !found {
          return;
        }
        OneMore(out, f, rest);
        out := out + [f];
        rest := rest[1..];
      }
    }
  }

  lemma OneMore(out: seq<File>, f: File, rest: seq<File>)
    requires rest != [] && f == rest[0]
    ensures (out + [f]) + rest[1..] == out + rest
  {
  }

  /** Where the next block of a content is. */
  lemma ContentPlace(data: seq<byte>, start: nat, size: nat, bytes: int, blocks: nat, content: seq<byte>)
    requires ContentRead(data, start, size, bytes, blocks, content) && blocks > 0
    ensures start + |content| == start + TBLOCK * BlocksFor(size) - TBLOCK * blocks
    ensures start + |content| + TBLOCK <= |data|
  {
  }

  /** Content up to where only this many bytes are missing has been read. */
  ghost predicate ContentRead(data: seq<byte>, start: nat, size: nat, bytes: int, blocks: nat, content: seq<byte>) {
    && start + TBLOCK * BlocksFor(size) <= |data|
    && (if blocks > 0 then TBLOCK * (blocks - 1) < bytes <= TBLOCK * blocks && size - bytes == TBLOCK * BlocksFor(size) - TBLOCK * blocks
        else bytes <= 0)
    && |content| == (if bytes > 0 then size - bytes else size)
    && At(data, start, content)
  }

  lemma ContentNext(data: seq<byte>, start: nat, size: nat, bytes: int, blocks: nat, content: seq<byte>, buf: seq<byte>)
    requires ContentRead(data, start, size, bytes, blocks, content) && blocks > 0
    requires |buf| == TBLOCK && At(data, start + |content|, buf)
    ensures var n := if bytes > TBLOCK then TBLOCK else bytes;
            ContentRead(data, start, size, bytes - TBLOCK, blocks - 1, content + buf[..n])
  {
    var n := if bytes > TBLOCK then TBLOCK else bytes;
    AtInside(data, start + |content|, buf, 0, buf[..n]);
    assert data[start..start + |content| + n] == content + buf[..n];
  }

  /** What a header block tells its reader. */
  datatype Entry =
    | EndOfTape
    | BadChecksum
    | Next(name: seq<byte>, mode: nat, uid: nat, mtime: nat, size: nat, link: bool)

  function Meaning(h: seq<byte>): Entry {
    if |h| != TBLOCK || h[0] == 0 then EndOfTape
    else if NumberAt(h, CHKSUM) != Sum(Blank(h)) then BadChecksum
    else Next(CString(h), NumberAt(h, MODE), NumberAt(h, UID), NumberAt(h, MTIME), NumberAt(h, SIZE), h[LINKFLAG] == ZERO + 1)
  }

  ghost predicate Extractable(fs: seq<File>) {
    forall i :: 0 <= i < |fs| ==> Regular(fs[i]) && |fs[i].name| < NAMSIZ
  }

  /** The file f, with its header, starts at this byte. */
  ghost predicate FileAt(data: seq<byte>, at: nat, f: File) {
    && AfterFile(at, f) <= |data| && f.name != [] && f.name[|f.name| - 1] != SLASH
    && Meaning(data[at..at + TBLOCK]) == Next(f.name, f.mode, f.uid, f.mtime, |f.content|, false)
    && At(data, at + TBLOCK, f.content)
  }

  function AfterFile(at: nat, f: File): nat { at + TBLOCK + TBLOCK * BlocksFor(|f.content|) }

  /** What reading from this byte on finds: these files, and then the end. */
  ghost predicate Tells(data: seq<byte>, at: nat, fs: seq<File>)
    decreases |fs|
  {
    if fs == [] then at + TBLOCK <= |data| && Meaning(data[at..at + TBLOCK]) == EndOfTape
    else FileAt(data, at, fs[0]) && Tells(data, AfterFile(at, fs[0]), fs[1..])
  }

  lemma TellsFirst(data: seq<byte>, at: nat, fs: seq<File>)
    requires Tells(data, at, fs)
    ensures at + TBLOCK <= |data|
  {
  }

  /** What the next header says, when these files are still to come. */
  lemma EntryOfFirst(data: seq<byte>, at: nat, fs: seq<File>, entry: Entry)
    requires Tells(data, at, fs) && at + TBLOCK <= |data| && entry == Meaning(data[at..at + TBLOCK])
    ensures fs == [] <==> entry == EndOfTape
    ensures fs != [] ==>
              var f := fs[0];
              && entry == Next(f.name, f.mode, f.uid, f.mtime, |f.content|, false)
              && f.name != [] && f.name[|f.name| - 1] != SLASH
              && FileAt(data, at, f) && Tells(data, AfterFile(at, f), fs[1..])
  {
  }

  /** An archive tells which files were put into it, from every entry on. */
  lemma {:induction false} ArchiveTells(data: seq<byte>, es: seq<seq<byte>>, fs: seq<File>, n: nat)
    requires IsArchive(data, es, fs) && Extractable(fs) && n <= |fs|
    ensures Tells(data, |Flatten(es[..n])|, fs[n..])
    decreases |fs| - n
  {
    if n == |fs| {
      EndThere(data, es, fs);
    } else {
      NthFile(data, es, fs, n);
      ArchiveTells(data, es, fs, n + 1);
      assert fs[n..][1..] == fs[n + 1..];
    }
  }

  lemma NthFile(data: seq<byte>, es: seq<seq<byte>>, fs: seq<File>, n: nat)
    requires IsArchive(data, es, fs) && Extractable(fs) && n < |fs|
    ensures FileAt(data, |Flatten(es[..n])|, fs[n])
    ensures AfterFile(|Flatten(es[..n])|, fs[n]) == |Flatten(es[..n + 1])|
  {
    EntryThere(data, es, fs, n, |Flatten(es[..n])|);
    EntryTells(data, |Flatten(es[..n])|, es[n], fs[n]);
    AfterEntry(es, n);
  }

  lemma EndThere(data: seq<byte>, es: seq<seq<byte>>, fs: seq<File>)
    requires IsArchive(data, es, fs)
    ensures Tells(data, |Flatten(es[..|fs|])|, [])
  {
    assert es[..|fs|] == es;
    var body, end := Flatten(es), Repeat(TBLOCK, 0);
    assert At(body + end, |body|, end);
    AtInside(data, 0, body + end, |body|, end);
  }

  lemma AfterEntry(es: seq<seq<byte>>, n: nat)
    requires n < |es|
    ensures |Flatten(es[..n + 1])| == |Flatten(es[..n])| + |es[n]|
  {
    assert es[..n + 1] == es[..n] + [es[n]];
    FlattenAppend(es[..n], [es[n]]);
    assert Flatten([es[n]]) == es[n];
  }

  lemma EntryThere(data: seq<byte>, es: seq<seq<byte>>, fs: seq<File>, n: nat, at: nat)
    requires IsArchive(data, es, fs) && n < |fs| && at == |Flatten(es[..n])|
    ensures At(data, at, es[n]) && IsEntry(es[n], fs[n])
  {
    FlattenSlice(es, n);
    var body, end := Flatten(es), Repeat(TBLOCK, 0);
    AtFront(body, end, []);
    assert body + end + [] == body + end;
    AtInside(data, 0, body + end, 0, body);
    AtInside(data, 0, body, at, es[n]);
  }

  lemma EntryTells(data: seq<byte>, at: nat, e: seq<byte>, f: File)
    requires At(data, at, e) && IsEntry(e, f) && Regular(f) && |f.name| < NAMSIZ
    ensures FileAt(data, at, f)
  {
    var h := Header(f);
    AtInside(data, at, e, 0, h);
    AtInside(data, at, e, TBLOCK, f.content);
    HeaderMeaning(f, h);
    assert data[at..at + TBLOCK] == h;
  }

  lemma HeaderMeaning(f: File, h: seq<byte>)
    requires Regular(f) && |f.name| < NAMSIZ && h == Header(f)
    ensures Meaning(h) == Next(f.name, f.mode, f.uid, f.mtime, |f.content|, false)
  {
    HeaderRoundTrip(f);
  }

  /** Writing an archive in records of any length and extracting it with any other
      gives back the files in order, except those whose names are too long. */
  method WriteThenExtract(files: seq<File>, writeBlocks: nat, readBlocks: nat) returns (out: seq<File>)
    requires writeBlocks > 0 && readBlocks > 0
    requires forall i :: 0 <= i < |files| ==> Regular(files[i])
    ensures out == Nameable(files)
  {
    var tape := new Tape.Create(writeBlocks);
    var writer := new Archiver(tape);
    ghost var es := writer.DoRep(files);
    TwoEmpty(Flatten(es));
    var reel := new Tape.Open(readBlocks, tape.data);
    var reader := new Archiver(reel);
    NameableRegular(files);
    assert IsArchive(reel.data, es, Nameable(files));
    ArchiveTells(reel.data, es, Nameable(files), 0);
    assert Nameable(files)[0..] == Nameable(files);
    out := reader.DoXtract(Nameable(files));
  }

  lemma TwoEmpty(s: seq<byte>)
    ensures s + Repeat(TBLOCK, 0) + Repeat(TBLOCK, 0) == s + Repeat(1024, 0)
  {
  }

  lemma {:induction false} NameableRegular(fs: seq<File>)
    requires forall i :: 0 <= i < |fs| ==> Regular(fs[i])
    ensures Extractable(Nameable(fs))
  {
    if fs != [] {
      NameableRegular(fs[..|fs| - 1]);
    }
  }

  lemma FlattenMore(es: seq<seq<byte>>, e: seq<byte>)
    ensures Flatten(es + [e]) == Flatten(es) + e
  {
    FlattenAppend(es, [e]);
    assert [e][1..] == [] && e + [] == e;
  }

  /** The content up to a point has been written, in whole blocks, and the blocks still
      allowed are enough for the rest. */
  ghost predicate Padding(content: seq<byte>, done: nat, body: seq<byte>, blocks: nat) {
    && done <= |content| && content[..done] <= body
    && |body| + TBLOCK * blocks == TBLOCK * BlocksFor(|content|)
    && (if done < |content| then |body| == done else blocks == 0)
  }

  lemma PaddingNext(content: seq<byte>, done: nat, body: seq<byte>, blocks: nat, i: nat, was: seq<byte>, b: seq<byte>)
    requires Padding(content, done, body, blocks) && done < |content| && |was| == TBLOCK
    requires i == if |content| - done < TBLOCK then |content| - done else TBLOCK
    requires b == Overlay(was, 0, content[done..done + i])
    ensures blocks > 0 && Padding(content, done + i, body + b, blocks - 1)
  {
    assert body == content[..done];
    assert b[..i] == content[done..done + i];
    assert content[..done + i] == body + b[..i];
    assert (body + b)[..done + i] == body + b[..i];
  }

  lemma NameableNext(fs: seq<File>, i: nat)
    requires i < |fs|
    ensures Nameable(fs[..i + 1]) == Nameable(fs[..i]) + if |fs[i].name| < NAMSIZ then [fs[i]] else []
  {
    assert fs[..i + 1][..i] == fs[..i];
  }
}
