/** The module packer: it appends to a file through a buffer of 128 bytes. */
module ModulePacker {
  import opened Common
  import opened ImageFormat

  const BUFFER_SIZE: nat := 128

  /** A file open for reading; the end-of-file flag rises only when a read comes up short. */
  class SourceFile {
    const data: seq<byte>
    var pos: nat
    var eof: bool

    ghost predicate Valid()
      reads this
    {
      pos <= |data| && (eof ==> pos == |data|)
    }

    constructor (data: seq<byte>)
      ensures Valid() && this.data == data && pos == 0 && !eof
    {
      this.data, pos, eof := data, 0, false;
    }

    /** `fread` of bytes into the whole buffer. */
    method Read(buffer: array<byte>) returns (n: nat)
      requires Valid()
      modifies this, buffer
      ensures Valid() && n <= buffer.Length && pos == old(pos) + n
      ensures buffer[..n] == data[old(pos)..pos]
      ensures eof <==> old(eof) || n < buffer.Length
      ensures n < buffer.Length ==> pos == |data|
    {
      n := 0;
      while n < buffer.Length && pos < |data|
        invariant n <= buffer.Length && pos == old(pos) + n <= |data| && eof == old(eof)
        invariant buffer[..n] == data[old(pos)..pos]
      {
        buffer[n] := data[pos];
        assert data[old(pos)..pos + 1] == data[old(pos)..pos] + [data[pos]];
        n, pos := n + 1, pos + 1;
      }
      if n < buffer.Length {
        eof := true;
      }
    }
  }

  /** A file open for writing. */
  class TargetFile {
    var contents: seq<byte>

    constructor ()
      ensures contents == []
    {
      contents := [];
    }

    method Write(bytes: seq<byte>)
      modifies this
      ensures contents == old(contents) + bytes
    {
      contents := contents + bytes;
    }
  }

  /** `write_file`: chunk by chunk until a read has come up short. */
  method WriteFile(target: TargetFile, source: SourceFile)
    requires source.Valid() && source.pos == 0 && !source.eof
    modifies target, source
    ensures target.contents == old(target.contents) + source.data
  {
    var buffer := new byte[BUFFER_SIZE];
    while !source.eof
      invariant source.Valid() && fresh(buffer)
      invariant target.contents == old(target.contents) + source.data[..source.pos]
      decreases |source.data| - source.pos, !source.eof
    {
      ghost var at := source.pos;
      var n := source.Read(buffer);
      target.Write(buffer[..n]);
      assert source.data[..at] + source.data[at..source.pos] == source.data[..source.pos];
    }
    assert source.data[..source.pos] == source.data;
  }

  /** `write_size`: the size of the file, cut to 32 bits. */
  method WriteSize(target: TargetFile, file: seq<byte>)
    modifies target
    ensures target.contents == old(target.contents) + Word(|file|)
  {
    target.Write(Word(|file|));
  }

  /** `buildImage`: the first file is the kernel, the others are the modules. */
  method BuildImage(files: seq<seq<byte>>) returns (target: TargetFile)
    requires files != []
    ensures target.contents == Image(files[0], files[1..])
  {
    target := new TargetFile();
    var source := new SourceFile(files[0]);
    WriteFile(target, source);
    target.Write(Word(|files| - 1));
    assert target.contents == files[0] + Word(|files| - 1) + Records(files[1..1]);
    var i := 1;
    while i < |files|
      invariant 1 <= i <= |files| && fresh(target)
      invariant target.contents == files[0] + Word(|files| - 1) + Records(files[1..i])
    {
      source := new SourceFile(files[i]);
      ghost var before := target.contents;
      WriteSize(target, files[i]);
      WriteFile(target, source);
      OneMore(files, i, before, target.contents);
      i := i + 1;
    }
    assert files[1..i] == files[1..];
  }

  lemma OneMore(files: seq<seq<byte>>, i: nat, before: seq<byte>, after: seq<byte>)
    requires 1 <= i < |files| && before == files[0] + Word(|files| - 1) + Records(files[1..i])
    requires after == before + Word(|files[i]|) + files[i]
    ensures after == files[0] + Word(|files| - 1) + Records(files[1..i + 1])
  {
    assert files[1..i + 1] == files[1..i] + [files[i]];
    RecordsAppend(files[1..i], files[i]);
    Assoc(before, Word(|files[i]|), files[i]);
    Assoc(files[0] + Word(|files| - 1), Records(files[1..i]), Record(files[i]));
  }
}

/** The kernel's copy routine and module loader, on an array of bytes. */
module ModuleLoader {
  import opened Common
  import opened ImageFormat
  import opened LittleEndian

  /** A store of a 32-bit word. */
  method PutWord(mem: array<byte>, a: nat, w: nat)
    requires a + 4 <= mem.Length
    modifies mem
    ensures mem[..] == StoreWord(old(mem[..]), a, w)
  {
    var bytes := Encode(w, 4);
    for j := 0 to 4
      invariant forall k :: 0 <= k < mem.Length ==> mem[k] == if a <= k < a + j then bytes[k - a] else old(mem[k])
    {
      mem[a + j] := bytes[j];
    }
    assert mem[..] == StoreWord(old(mem[..]), a, w);
  }

  /** The word loop of `mem_cpy`. */
  method CopyByWords(mem: array<byte>, d: nat, s: nat, n: nat)
    requires d + 4 * n <= mem.Length && s + 4 * n <= mem.Length
    modifies mem
    ensures mem[..] == CopyWords(old(mem[..]), d, s, n)
  {
    for i := 0 to n
      invariant mem[..] == CopyWords(old(mem[..]), d, s, i)
    {
      var w := LoadWord(mem[..], s + 4 * i);
      PutWord(mem, d + 4 * i, w);
    }
  }

  /** The byte loop of `mem_cpy`. */
  method CopyByBytes(mem: array<byte>, d: nat, s: nat, n: nat)
    requires d + n <= mem.Length && s + n <= mem.Length
    modifies mem
    ensures mem[..] == CopyBytes(old(mem[..]), d, s, n)
  {
    for i := 0 to n
      invariant mem[..] == CopyBytes(old(mem[..]), d, s, i)
    {
      ghost var r := mem[..];
      mem[d + i] := mem[s + i];
      assert mem[..] == r[d + i := r[s + i]];
    }
  }

  /** `mem_cpy`: by words if both addresses and the length are multiples of four, by bytes otherwise. */
  method MemCpy(mem: array<byte>, destination: nat, source: nat, length: nat)
    requires destination + length <= mem.Length && source + length <= mem.Length
    modifies mem
    ensures mem[..] == CopyBytes(old(mem[..]), destination, source, length)
  {
    if destination % 4 == 0 && source % 4 == 0 && length % 4 == 0 {
      WordsAgreeWithBytes(mem[..], destination, source, length / 4);
      CopyByWords(mem, destination, source, length / 4);
    } else {
      CopyByBytes(mem, destination, source, length);
    }
  }

  /** `read_uint32`: the word at the cursor, and the cursor behind it. */
  method ReadUint32(mem: array<byte>, cursor: nat) returns (w: nat, next: nat)
    requires cursor + 4 <= mem.Length
    ensures w == LoadWord(mem[..], cursor) && next == cursor + 4
  {
    w := LoadWord(mem[..], cursor);
    next := cursor + 4;
  }

  /** `load_module`. */
  method LoadModule(mem: array<byte>, cursor: nat, target: nat) returns (next: nat)
    requires cursor + 4 <= mem.Length
    requires var size := LoadWord(mem[..], cursor); cursor + 4 + size <= mem.Length && target + size <= mem.Length
    modifies mem
    ensures var size := LoadWord(old(mem[..]), cursor);
            mem[..] == CopyBytes(old(mem[..]), target, cursor + 4, size) && next == cursor + 4 + size
  {
    var size;
    size, next := ReadUint32(mem, cursor);
    MemCpy(mem, target, next, size);
    next := next + size;
  }

  /** `load_modules`, for a payload whose modules and targets lie in memory. */
  method LoadModules(mem: array<byte>, payload: nat, targets: seq<nat>)
    requires Load(mem[..], payload, targets).Some?
    modifies mem
    ensures Load(old(mem[..]), payload, targets) == Some(mem[..])
  {
    var count, cursor := ReadUint32(mem, payload);
    var i := 0;
    while i < count
      invariant i <= count && i <= |targets|
      invariant LoadFrom(mem[..], cursor, targets[i..], count - i) == Load(old(mem[..]), payload, targets)
    {
      assert targets[i..] != [];
      assert targets[i..][1..] == targets[i + 1..];
      cursor := LoadModule(mem, cursor, targets[i]);
      i := i + 1;
    }
  }
}
