/** Copying between a buffer and the traced process one 8-byte word at a time. */
module ProcessMemory {

  type Byte = bv8

  /** A `long` as the bytes it is stored in, which is all that `memcpy` sees of it. */
  type Word = w: seq<Byte> | |w| == 8 witness [0, 0, 0, 0, 0, 0, 0, 0]

  ghost predicate Mapped(mem: map<nat, Byte>, addr: nat, n: nat) {
    forall a :: addr <= a < addr + n ==> a in mem
  }

  function BytesAt(mem: map<nat, Byte>, addr: nat, n: nat): (s: seq<Byte>)
    requires Mapped(mem, addr, n)
    ensures |s| == n && forall i :: 0 <= i < n ==> s[i] == mem[addr + i]
  {
    if n == 0 then [] else BytesAt(mem, addr, n - 1) + [mem[addr + n - 1]]
  }

  /** `mem` with the bytes from `addr` on replaced by `s`, and nothing else changed. */
  function Overwrite(mem: map<nat, Byte>, addr: nat, s: seq<Byte>): (m: map<nat, Byte>)
    requires Mapped(mem, addr, |s|)
    ensures m.Keys == mem.Keys
    ensures forall a :: a in mem ==> m[a] == if addr <= a < addr + |s| then s[a - addr] else mem[a]
  {
    map a | a in mem :: if addr <= a < addr + |s| then s[a - addr] else mem[a]
  }

  /** The number of words a transfer of `size` bytes touches, the partial one included. */
  function WordsTouched(size: nat): nat {
    if size % 8 == 0 then size / 8 else size / 8 + 1
  }

  /** All bytes are mapped and none refuses a poke. */
  ghost predicate Pokeable(mem: map<nat, Byte>, locked: set<nat>, addr: nat, n: nat) {
    forall a :: addr <= a < addr + n ==> a in mem && a !in locked
  }

  lemma WordsTouchedSpan(size: nat)
    ensures size <= 8 * WordsTouched(size) < size + 8
    ensures WordsTouched(size) == size / 8 + if size % 8 > 0 then 1 else 0
  {}

  // ---------------------------------------------------------------- word steps

  lemma OverwriteNothing(mem: map<nat, Byte>, addr: nat, buffer: seq<Byte>)
    ensures Overwrite(mem, addr, buffer[..0]) == mem
  {}

  lemma OverwriteWord(mem: map<nat, Byte>, addr: nat, buffer: seq<Byte>, n: nat)
    requires n + 8 <= |buffer| && Mapped(mem, addr, n) && Mapped(mem, addr + n, 8)
    ensures Mapped(mem, addr, n + 8)
    ensures Overwrite(Overwrite(mem, addr, buffer[..n]), addr + n, buffer[n..n + 8]) == Overwrite(mem, addr, buffer[..n + 8])
  {}

  /** A partial last word: the bytes past the end are put back as they were. */
  lemma OverwriteTail(mem: map<nat, Byte>, addr: nat, buffer: seq<Byte>, n: nat, size: nat, existing: Word)
    requires n < size < n + 8 && size <= |buffer| && Mapped(mem, addr, n) && Mapped(mem, addr + n, 8)
    requires existing == BytesAt(Overwrite(mem, addr, buffer[..n]), addr + n, 8)
    ensures Mapped(mem, addr, size) && |buffer[n..size] + existing[size - n..]| == 8
    ensures Overwrite(Overwrite(mem, addr, buffer[..n]), addr + n, buffer[n..size] + existing[size - n..])
         == Overwrite(mem, addr, buffer[..size])
  {
    var w := buffer[n..size] + existing[size - n..];
    var before := Overwrite(mem, addr, buffer[..n]);
    forall a | a in mem
      ensures Overwrite(before, addr + n, w)[a] == Overwrite(mem, addr, buffer[..size])[a]
    {
      if addr + n <= a < addr + n + 8 {
        assert w[a - addr - n] == if a < addr + size then buffer[a - addr] else existing[a - addr - n];
      }
    }
  }

  /** A write that fails has changed a prefix of whole words, up to the first word that refuses. */
  ghost predicate StoppedAfter(mem0: map<nat, Byte>, locked: set<nat>, mem: map<nat, Byte>, addr: nat, buffer: seq<Byte>, size: nat, k: nat) {
    && 8 * k < size <= |buffer| && Pokeable(mem0, locked, addr, 8 * k) && !Pokeable(mem0, locked, addr + 8 * k, 8)
    && mem == Overwrite(mem0, addr, buffer[..8 * k])
  }

  lemma StoppedMeansRefused(mem0: map<nat, Byte>, locked: set<nat>, mem: map<nat, Byte>, addr: nat, buffer: seq<Byte>, size: nat, k: nat)
    requires StoppedAfter(mem0, locked, mem, addr, buffer, size, k)
    ensures !Pokeable(mem0, locked, addr, 8 * WordsTouched(size))
  {
    WordsTouchedSpan(size);
    var a :| addr + 8 * k <= a < addr + 8 * k + 8 && (a !in mem0 || a in locked);
    assert 8 * k + 8 <= 8 * WordsTouched(size);
  }

  class Process {
    /** The mapped bytes: a peek fails on a word that is not mapped in full ... */
    var memory: map<nat, Byte>

    /** ... and a poke also on a word with a byte in here. */
    const locked: set<nat>

    constructor (memory: map<nat, Byte>, locked: set<nat>)
      ensures this.memory == memory && this.locked == locked
    {
      this.memory, this.locked := memory, locked;
    }

    method Peek(addr: nat) returns (ok: bool, word: Word)
      ensures ok <==> Mapped(memory, addr, 8)
      ensures ok ==> word == BytesAt(memory, addr, 8)
    {
      word := [0, 0, 0, 0, 0, 0, 0, 0];
      var i := 0;
      while i < 8
        invariant 0 <= i <= 8 && |word| == 8 && Mapped(memory, addr, i)
        invariant forall k :: 0 <= k < i ==> word[k] == memory[addr + k]
      {
        if addr + i !in memory { return false, word; }
        word := word[i := memory[addr + i]];
        i := i + 1;
      }
      ok := true;
    }

    method Poke(addr: nat, word: Word) returns (ok: bool)
      modifies this
      ensures ok <==> Pokeable(old(memory), locked, addr, 8)
      ensures memory == if ok then Overwrite(old(memory), addr, word) else old(memory)
    {
      var mapped, _ := Peek(addr);
      if !mapped { return false; }
      if a :| addr <= a < addr + 8 && a in locked { return false; }
      memory := Overwrite(memory, addr, word);
      ok := true;
    }

    /** `read_process_memory` into a buffer with room for `size` bytes. */
    method ReadProcessMemory(addr: nat, buffer: array<Byte>, size: nat) returns (ok: bool)
      requires size <= buffer.Length
      modifies buffer
      ensures ok <==> Mapped(memory, addr, 8 * WordsTouched(size))
      ensures ok ==> Mapped(memory, addr, size) && buffer[..size] == BytesAt(memory, addr, size)
      ensures buffer[size..] == old(buffer[size..])
    {
      var words := size / 8;
      var remainder := size % 8;
      var i := 0;
      while i < words
        invariant 0 <= i <= words && Mapped(memory, addr, 8 * i)
        invariant forall k :: 0 <= k < 8 * i ==> buffer[k] == memory[addr + k]
        invariant buffer[size..] == old(buffer[size..])
      {
        var got, word := Peek(addr + 8 * i);
        if !got { return false; }
        forall k | 0 <= k < 8 {
          buffer[8 * i + k] := word[k];
        }
        i := i + 1;
      }
      if remainder > 0 {
        var got, word := Peek(addr + 8 * words);
        if !got { return false; }
        forall k | 0 <= k < remainder {
          buffer[8 * words + k] := word[k];
        }
      }
      ok := true;
    }

    /** The loop over whole words; `done` is the number of words written. */
    method PokeWords(addr: nat, buffer: seq<Byte>, words: nat) returns (done: nat)
      requires 8 * words <= |buffer|
      modifies this
      ensures done <= words && Pokeable(old(memory), locked, addr, 8 * done)
      ensures memory == Overwrite(old(memory), addr, buffer[..8 * done])
      ensures done < words ==> !Pokeable(old(memory), locked, addr + 8 * done, 8)
    {
      ghost var mem0 := memory;
      OverwriteNothing(mem0, addr, buffer);
      done := 0;
      while done < words
        invariant done <= words && Pokeable(mem0, locked, addr, 8 * done)
        invariant memory == Overwrite(mem0, addr, buffer[..8 * done])
      {
        var poked := Poke(addr + 8 * done, buffer[8 * done..8 * done + 8]);
        if !poked { return; }
        OverwriteWord(mem0, addr, buffer, 8 * done);
        done := done + 1;
      }
    }

    /** The partial last word: read, patched and written back. */
    method PokeTail(addr: nat, buffer: seq<Byte>, n: nat, size: nat, ghost mem0: map<nat, Byte>) returns (ok: bool)
      requires n < size < n + 8 && size <= |buffer|
      requires Mapped(mem0, addr, n) && memory == Overwrite(mem0, addr, buffer[..n])
      modifies this
      ensures ok <==> Pokeable(mem0, locked, addr + n, 8)
      ensures ok ==> Mapped(mem0, addr, size) && memory == Overwrite(mem0, addr, buffer[..size])
      ensures !ok ==> memory == old(memory)
    {
      var peeked, existing := Peek(addr + n);
      if !peeked { return false; }
      OverwriteTail(mem0, addr, buffer, n, size, existing);
      existing := buffer[n..size] + existing[size - n..];
      ok := Poke(addr + n, existing);
    }

    /** `write_process_memory`. */
    method WriteProcessMemory(addr: nat, buffer: seq<Byte>, size: nat) returns (ok: bool)
      requires size <= |buffer|
      modifies this
      ensures ok <==> Pokeable(old(memory), locked, addr, 8 * WordsTouched(size))
      ensures ok ==> Mapped(old(memory), addr, size) && memory == Overwrite(old(memory), addr, buffer[..size])
      ensures !ok ==> exists k: nat :: StoppedAfter(old(memory), locked, memory, addr, buffer, size, k)
    {
      var words := size / 8;
      var remainder := size % 8;
      ghost var mem0 := memory;
      WordsTouchedSpan(size);
      var done := PokeWords(addr, buffer, words);
      ok := done == words;
      if ok && remainder > 0 {
        ok := PokeTail(addr, buffer, 8 * words, size, mem0);
      }
      if !ok {
        assert StoppedAfter(mem0, locked, memory, addr, buffer, size, done);
        StoppedMeansRefused(mem0, locked, memory, addr, buffer, size, done);
      }
    }

    /** A read that follows a successful write succeeds and fills the buffer with what was written. */
    method WriteThenRead(addr: nat, data: seq<Byte>, buffer: array<Byte>) returns (wrote: bool, got: bool)
      requires |data| <= buffer.Length
      modifies this, buffer
      ensures wrote <==> Pokeable(old(memory), locked, addr, 8 * WordsTouched(|data|))
      ensures wrote ==> got && buffer[..|data|] == data && buffer[|data|..] == old(buffer[|data|..])
    {
      wrote := WriteProcessMemory(addr, data, |data|);
      got := ReadProcessMemory(addr, buffer, |data|);
      if wrote {
        assert data[..|data|] == data;
        assert BytesAt(memory, addr, |data|) == data;
      }
    }
  }
}
