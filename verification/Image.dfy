/** The packed image: written by the module packer, read by the kernel's module loader. */
module ImageFormat {
  import opened Common
  import opened LittleEndian

  // ----- the writer -----

  /** A number truncated to a 32-bit word. */
  function Word(n: nat): (s: seq<byte>)
    ensures |s| == 4
  {
    Encode(n % WORD32, 4)
  }

  /** A module is stored behind its size. */
  function Record(m: seq<byte>): seq<byte> {
    Word(|m|) + m
  }

  function Records(ms: seq<seq<byte>>): seq<byte> {
    if ms == [] then [] else Record(ms[0]) + Records(ms[1..])
  }

  /** `buildImage`: the kernel, the number of modules, the modules. */
  function Image(kernel: seq<byte>, ms: seq<seq<byte>>): seq<byte> {
    kernel + Word(|ms|) + Records(ms)
  }

  lemma Assoc(a: seq<byte>, b: seq<byte>, c: seq<byte>)
    ensures (a + b) + c == a + (b + c)
  {
  }

  lemma {:induction false} RecordsAppend(ms: seq<seq<byte>>, m: seq<byte>)
    ensures Records(ms + [m]) == Records(ms) + Record(m)
  {
    if ms == [] {
      assert (ms + [m])[1..] == [];
      assert Records([m]) == Record(m) + [];
    } else {
      RecordsAppend(ms[1..], m);
      assert (ms + [m])[1..] == ms[1..] + [m];
      Assoc(Record(ms[0]), Records(ms[1..]), Record(m));
    }
  }

  // ----- memory -----

  function LoadWord(mem: seq<byte>, a: nat): (w: nat)
    requires a + 4 <= |mem|
    ensures w < WORD32
  {
    EncodeDecode(mem[a..a + 4]);
    Spans();
    Decode(mem[a..a + 4])
  }

  function StoreWord(mem: seq<byte>, a: nat, w: nat): (r: seq<byte>)
    requires a + 4 <= |mem|
    ensures |r| == |mem|
  {
    mem[..a] + Encode(w, 4) + mem[a + 4..]
  }

  /** The byte path of `mem_cpy`: n bytes forward. */
  function CopyBytes(mem: seq<byte>, d: nat, s: nat, n: nat): (r: seq<byte>)
    requires d + n <= |mem| && s + n <= |mem|
    ensures |r| == |mem|
  {
    if n == 0 then mem
    else
      var r := CopyBytes(mem, d, s, n - 1);
      r[d + n - 1 := r[s + n - 1]]
  }

  /** The word path of `mem_cpy`: n words forward. */
  function CopyWords(mem: seq<byte>, d: nat, s: nat, n: nat): (r: seq<byte>)
    requires d + 4 * n <= |mem| && s + 4 * n <= |mem|
    ensures |r| == |mem|
  {
    if n == 0 then mem
    else
      var r := CopyWords(mem, d, s, n - 1);
      StoreWord(r, d + 4 * (n - 1), LoadWord(r, s + 4 * (n - 1)))
  }

  /** r is mem with the n bytes from s on also at d. */
  ghost predicate Copied(mem: seq<byte>, r: seq<byte>, d: nat, s: nat, n: nat)
    requires d + n <= |mem| && s + n <= |mem|
  {
    |r| == |mem| && forall k: nat :: k < |r| ==> r[k] == mem[if d <= k < d + n then s + (k - d) else k]
  }

  lemma {:induction false} CopyAt(mem: seq<byte>, d: nat, s: nat, n: nat, k: nat)
    requires d + n <= |mem| && s + n <= |mem| && (d <= s || s + n <= d) && k < |mem|
    ensures CopyBytes(mem, d, s, n)[k] == if d <= k < d + n then mem[s + (k - d)] else mem[k]
    decreases n
  {
    if n > 0 {
      CopyAt(mem, d, s, n - 1, k);
      if k == d + n - 1 {
        CopyAt(mem, d, s, n - 1, s + n - 1);
      }
    }
  }

  /** A forward copy delivers the source and touches nothing else, unless it runs into a source ahead of it. */
  lemma {:induction false} CopyKeeps(mem: seq<byte>, d: nat, s: nat, n: nat)
    requires d + n <= |mem| && s + n <= |mem| && (d <= s || s + n <= d)
    ensures Copied(mem, CopyBytes(mem, d, s, n), d, s, n)
  {
    forall k: nat | k < |mem|
      ensures CopyBytes(mem, d, s, n)[k] == mem[if d <= k < d + n then s + (k - d) else k]
    {
      CopyAt(mem, d, s, n, k);
    }
  }

  lemma SpliceAt(mem: seq<byte>, d: nat, w: seq<byte>, k: nat)
    requires d + |w| <= |mem| && k < |mem|
    ensures (mem[..d] + w + mem[d + |w|..])[k] == if d <= k < d + |w| then w[k - d] else mem[k]
  {
  }

  /** Copying one word is copying four bytes, unless the word being read is overwritten on the way. */
  lemma WordIsFourBytes(mem: seq<byte>, d: nat, s: nat)
    requires d + 4 <= |mem| && s + 4 <= |mem| && (d <= s || s + 4 <= d)
    ensures StoreWord(mem, d, LoadWord(mem, s)) == CopyBytes(mem, d, s, 4)
  {
    var w := mem[s..s + 4];
    EncodeDecode(w);
    assert StoreWord(mem, d, LoadWord(mem, s)) == mem[..d] + w + mem[d + 4..];
    CopyKeeps(mem, d, s, 4);
    var r := CopyBytes(mem, d, s, 4);
    forall k: nat | k < |mem|
      ensures (mem[..d] + w + mem[d + 4..])[k] == r[k]
    {
      SpliceAt(mem, d, w, k);
    }
  }

  lemma {:induction false} CopySplit(mem: seq<byte>, d: nat, s: nat, m: nat, n: nat)
    requires d + m + n <= |mem| && s + m + n <= |mem|
    ensures CopyBytes(mem, d, s, m + n) == CopyBytes(CopyBytes(mem, d, s, m), d + m, s + m, n)
    decreases n
  {
    if n > 0 {
      CopySplit(mem, d, s, m, n - 1);
    }
  }

  lemma WholeWordsApart(d: nat, s: nat)
    requires d % 4 == 0 && s % 4 == 0
    ensures d <= s || s + 4 <= d
  {
  }

  /** One step of the word loop is four steps of the byte loop. */
  lemma WordStep(mem: seq<byte>, d: nat, s: nat, m: nat, r: seq<byte>)
    requires d + m + 4 <= |mem| && s + m + 4 <= |mem| && d % 4 == 0 && s % 4 == 0
    requires r == CopyBytes(mem, d, s, m)
    ensures StoreWord(r, d + m, LoadWord(r, s + m)) == CopyBytes(mem, d, s, m + 4)
  {
    CopySplit(mem, d, s, m, 4);
    WholeWordsApart(d, s);
    WordIsFourBytes(r, d + m, s + m);
  }

  /**
   * For word-aligned addresses the word path of `mem_cpy` does what the byte path does, even if the buffers overlap:
   * aligned buffers are whole words apart.
   */
  lemma {:induction false} WordsAgreeWithBytes(mem: seq<byte>, d: nat, s: nat, n: nat)
    requires d + 4 * n <= |mem| && s + 4 * n <= |mem| && d % 4 == 0 && s % 4 == 0
    ensures CopyWords(mem, d, s, n) == CopyBytes(mem, d, s, 4 * n)
  {
    if n > 0 {
      WordsAgreeWithBytes(mem, d, s, n - 1);
      var m, r := 4 * (n - 1), CopyWords(mem, d, s, n - 1);
      assert m + 4 == 4 * n;
      WordStep(mem, d, s, m, r);
      LastWord(mem, d, s, n, m, r);
    }
  }

  lemma LastWord(mem: seq<byte>, d: nat, s: nat, n: nat, m: nat, r: seq<byte>)
    requires n > 0 && m == 4 * (n - 1) && d + m + 4 <= |mem| && s + m + 4 <= |mem|
    requires d + 4 * n <= |mem| && s + 4 * n <= |mem| && r == CopyWords(mem, d, s, n - 1)
    ensures CopyWords(mem, d, s, n) == StoreWord(r, d + m, LoadWord(r, s + m))
  {
  }

  // ----- the reader -----

  /** `load_modules` once the count is read: n modules from address p on; None if an access leaves the memory. */
  function LoadFrom(mem: seq<byte>, p: nat, targets: seq<nat>, n: nat): (r: Option<seq<byte>>)
    ensures r.Some? ==> |r.value| == |mem|
    decreases n
  {
    if n == 0 then Some(mem)
    else if targets == [] || p + 4 > |mem| then None
    else
      var size := LoadWord(mem, p);
      if p + 4 + size > |mem| || targets[0] + size > |mem| then None
      else LoadFrom(CopyBytes(mem, targets[0], p + 4, size), p + 4 + size, targets[1..], n - 1)
  }

  /** `load_modules`. */
  function Load(mem: seq<byte>, payload: nat, targets: seq<nat>): (r: Option<seq<byte>>)
    ensures r.Some? ==> |r.value| == |mem|
  {
    if payload + 4 > |mem| then None else LoadFrom(mem, payload + 4, targets, LoadWord(mem, payload))
  }

  // ----- the round trip -----

  ghost predicate At(mem: seq<byte>, a: nat, bytes: seq<byte>) {
    a + |bytes| <= |mem| && forall k: nat :: k < |bytes| ==> mem[a + k] == bytes[k]
  }

  /** The memories agree outside the n bytes from a on. */
  ghost predicate SameOff(mem: seq<byte>, mem': seq<byte>, a: nat, n: nat) {
    |mem'| == |mem| && forall k: nat :: k < |mem| && !(a <= k < a + n) ==> mem'[k] == mem[k]
  }

  predicate Disjoint(a: nat, m: nat, b: nat, n: nat) {
    a + m <= b || b + n <= a
  }

  /** k lies in none of the target areas. */
  ghost predicate Outside(k: nat, targets: seq<nat>, ms: seq<seq<byte>>)
    requires |targets| == |ms|
  {
    forall i: nat :: i < |ms| ==> !(targets[i] <= k < targets[i] + |ms[i]|)
  }

  /** The target areas lie in memory, off the payload of the given length at p, and off one another. */
  ghost predicate TargetsOk(size: nat, p: nat, length: nat, targets: seq<nat>, ms: seq<seq<byte>>) {
    && |targets| == |ms|
    && (forall i: nat :: i < |ms| ==> targets[i] + |ms[i]| <= size && Disjoint(p, length, targets[i], |ms[i]|))
    && (forall i: nat, j: nat :: i < j < |ms| ==> Disjoint(targets[i], |ms[i]|, targets[j], |ms[j]|))
  }

  ghost predicate Small(ms: seq<seq<byte>>) {
    forall i: nat :: i < |ms| ==> |ms[i]| < WORD32
  }

  /** Module i at target i, and everything outside the targets as before. */
  ghost predicate Loaded(before: seq<byte>, after: seq<byte>, targets: seq<nat>, ms: seq<seq<byte>>)
    requires |targets| == |ms|
  {
    && |after| == |before|
    && (forall i: nat :: i < |ms| ==> At(after, targets[i], ms[i]))
    && (forall k: nat :: k < |before| && Outside(k, targets, ms) ==> after[k] == before[k])
  }

  lemma AtParts(mem: seq<byte>, a: nat, x: seq<byte>, y: seq<byte>)
    requires At(mem, a, x + y)
    ensures At(mem, a, x) && At(mem, a + |x|, y)
  {
    forall k: nat | k < |x|
      ensures mem[a + k] == x[k]
    {
      assert (x + y)[k] == x[k];
    }
    forall k: nat | k < |y|
      ensures mem[a + |x| + k] == y[k]
    {
      assert (x + y)[|x| + k] == y[k];
    }
  }

  lemma WordAt(mem: seq<byte>, a: nat, w: nat)
    requires w < WORD32 && At(mem, a, Word(w))
    ensures LoadWord(mem, a) == w
  {
    SliceAt(mem, a, Word(w));
    LoadIs(mem, a, Word(w));
    WordOf(w);
  }

  lemma WordOf(w: nat)
    requires w < WORD32
    ensures Decode(Word(w)) == w
  {
    Spans();
    DecodeEncode(w, 4);
  }

  lemma LoadIs(mem: seq<byte>, a: nat, x: seq<byte>)
    requires |x| == 4 && a + 4 <= |mem| && mem[a..a + 4] == x
    ensures LoadWord(mem, a) == Decode(x)
  {
  }

  lemma SliceAt(mem: seq<byte>, a: nat, x: seq<byte>)
    requires At(mem, a, x)
    ensures mem[a..a + |x|] == x
  {
  }

  /** A copy to a disjoint place leaves stored bytes alone. */
  lemma AtStays(mem: seq<byte>, a: nat, x: seq<byte>, d: nat, s: nat, n: nat)
    requires At(mem, a, x) && d + n <= |mem| && s + n <= |mem| && Disjoint(s, n, d, n) && Disjoint(a, |x|, d, n)
    ensures At(CopyBytes(mem, d, s, n), a, x)
  {
    CopyKeeps(mem, d, s, n);
  }

  lemma CopyDelivers(mem: seq<byte>, d: nat, s: nat, x: seq<byte>)
    requires At(mem, s, x) && d + |x| <= |mem| && Disjoint(s, |x|, d, |x|)
    ensures At(CopyBytes(mem, d, s, |x|), d, x)
  {
    CopyKeeps(mem, d, s, |x|);
    var r := CopyBytes(mem, d, s, |x|);
    forall k: nat | k < |x|
      ensures r[d + k] == x[k]
    {
      assert mem[s + k] == x[k];
    }
  }

  /** The tail of the targets, against the tail of the payload. */
  lemma TailOk(size: nat, p: nat, targets: seq<nat>, ms: seq<seq<byte>>)
    requires ms != [] && TargetsOk(size, p, |Records(ms)|, targets, ms)
    ensures TargetsOk(size, p + 4 + |ms[0]|, |Records(ms[1..])|, targets[1..], ms[1..])
    ensures Disjoint(p + 4, |ms[0]| + |Records(ms[1..])|, targets[0], |ms[0]|) && targets[0] + |ms[0]| <= size
  {
    forall i: nat | i < |ms| - 1
      ensures targets[1..][i] + |ms[1..][i]| <= size
      ensures Disjoint(p + 4 + |ms[0]|, |Records(ms[1..])|, targets[1..][i], |ms[1..][i]|)
    {
      assert Disjoint(p, |Records(ms)|, targets[i + 1], |ms[i + 1]|);
    }
    assert Disjoint(p, |Records(ms)|, targets[0], |ms[0]|);
  }

  lemma {:induction false} RecordsLoad(mem: seq<byte>, p: nat, targets: seq<nat>, ms: seq<seq<byte>>)
    requires Small(ms) && At(mem, p, Records(ms)) && TargetsOk(|mem|, p, |Records(ms)|, targets, ms)
    ensures LoadFrom(mem, p, targets, |ms|).Some?
    ensures Loaded(mem, LoadFrom(mem, p, targets, |ms|).value, targets, ms)
    decreases |ms|
  {
    if ms != [] {
      var mem' := FirstLoads(mem, p, targets, ms);
      RecordsLoad(mem', p + 4 + |ms[0]|, targets[1..], ms[1..]);
      FirstStays(mem, mem', targets, ms, LoadFrom(mem', p + 4 + |ms[0]|, targets[1..], |ms| - 1).value);
    }
  }

  /** The loader reads back the length of a module exactly if it fits 32 bits; otherwise it reads its remainder. */
  lemma SizeSurvivesExactly(mem: seq<byte>, p: nat, m: seq<byte>)
    requires At(mem, p, Record(m))
    ensures LoadWord(mem, p) == |m| <==> |m| < WORD32
    ensures LoadWord(mem, p) == |m| % WORD32
  {
    AtParts(mem, p, Word(|m|), m);
    TruncatedWord(|m|);
    WordAt(mem, p, |m| % WORD32);
  }

  /** The bytes of a stored number below 2^32, the lowest first. */
  lemma WordBytes(n: nat, b0: byte, b1: byte, b2: byte, b3: byte)
    requires n == b0 + 256 * b1 + 65536 * b2 + 16777216 * b3
    ensures Word(n) == [b0, b1, b2, b3]
  {
    var n1, n2 := b1 + 256 * b2 + 65536 * b3, b2 + 256 * b3;
    assert n < WORD32 && n == b0 + 256 * n1 && n1 == b1 + 256 * n2;
    LowByte(b0, n1);
    LowByte(b1, n2);
    LowByte(b2, b3);
    assert Encode(n, 4) == [b0] + Encode(n1, 3);
    assert Encode(n1, 3) == [b1] + Encode(n2, 2);
    assert Encode(n2, 2) == [b2] + Encode(b3, 1);
    assert Encode(b3, 1) == [b3];
  }

  lemma TruncatedWord(n: nat)
    ensures Word(n % WORD32) == Word(n)
  {
    assert n % WORD32 % WORD32 == n % WORD32;
  }

  /** A stored number and what follows it. */
  lemma WordThen(mem: seq<byte>, a: nat, w: nat, rest: seq<byte>)
    requires w < WORD32 && At(mem, a, Word(w) + rest)
    ensures a + 4 + |rest| <= |mem| && LoadWord(mem, a) == w && At(mem, a + 4, rest)
  {
    AtParts(mem, a, Word(w), rest);
    WordAt(mem, a, w);
  }

  lemma RecordsSplit(ms: seq<seq<byte>>)
    requires ms != []
    ensures Records(ms) == Word(|ms[0]|) + (ms[0] + Records(ms[1..]))
  {
    Assoc(Word(|ms[0]|), ms[0], Records(ms[1..]));
  }

  /** The parts of the first record. */
  lemma HeadParts(mem: seq<byte>, p: nat, ms: seq<seq<byte>>)
    requires ms != [] && Small(ms) && At(mem, p, Records(ms))
    ensures p + 4 + |ms[0]| <= |mem| && LoadWord(mem, p) == |ms[0]|
    ensures At(mem, p + 4, ms[0]) && At(mem, p + 4 + |ms[0]|, Records(ms[1..]))
  {
    RecordsSplit(ms);
    WordThen(mem, p, |ms[0]|, ms[0] + Records(ms[1..]));
    AtParts(mem, p + 4, ms[0], Records(ms[1..]));
  }

  /** The first module is copied to its target, and the other records stay readable. */
  lemma FirstLoads(mem: seq<byte>, p: nat, targets: seq<nat>, ms: seq<seq<byte>>) returns (mem': seq<byte>)
    requires ms != [] && Small(ms) && At(mem, p, Records(ms)) && TargetsOk(|mem|, p, |Records(ms)|, targets, ms)
    ensures LoadFrom(mem, p, targets, |ms|) == LoadFrom(mem', p + 4 + |ms[0]|, targets[1..], |ms| - 1)
    ensures At(mem', p + 4 + |ms[0]|, Records(ms[1..])) && At(mem', targets[0], ms[0])
    ensures TargetsOk(|mem'|, p + 4 + |ms[0]|, |Records(ms[1..])|, targets[1..], ms[1..])
    ensures SameOff(mem, mem', targets[0], |ms[0]|)
  {
    HeadParts(mem, p, ms);
    TailOk(|mem|, p, targets, ms);
    mem' := FirstCopied(mem, p + 4, targets[0], ms[0], Records(ms[1..]));
    LoadsFirst(mem, p, targets, |ms|, |ms[0]|);
  }

  lemma LoadsFirst(mem: seq<byte>, p: nat, targets: seq<nat>, n: nat, size: nat)
    requires n > 0 && targets != [] && p + 4 + size <= |mem| && LoadWord(mem, p) == size && targets[0] + size <= |mem|
    ensures LoadFrom(mem, p, targets, n) ==
            LoadFrom(CopyBytes(mem, targets[0], p + 4, size), p + 4 + size, targets[1..], n - 1)
  {
  }

  lemma FirstCopied(mem: seq<byte>, s: nat, t: nat, m: seq<byte>, rest: seq<byte>) returns (mem': seq<byte>)
    requires At(mem, s, m) && At(mem, s + |m|, rest) && t + |m| <= |mem| && Disjoint(s, |m| + |rest|, t, |m|)
    ensures mem' == CopyBytes(mem, t, s, |m|)
    ensures At(mem', s + |m|, rest) && At(mem', t, m)
    ensures SameOff(mem, mem', t, |m|)
  {
    mem' := CopyBytes(mem, t, s, |m|);
    AtStays(mem, s + |m|, rest, t, s, |m|);
    CopyDelivers(mem, t, s, m);
    CopyKeeps(mem, t, s, |m|);
  }

  /** Loading the other modules leaves the first one where it was put. */
  lemma FirstStays(mem: seq<byte>, mem': seq<byte>, targets: seq<nat>, ms: seq<seq<byte>>, r: seq<byte>)
    requires |targets| == |ms| > 0 && |mem'| == |mem| && targets[0] + |ms[0]| <= |mem|
    requires SameOff(mem, mem', targets[0], |ms[0]|)
    requires forall j: nat :: 0 < j < |ms| ==> Disjoint(targets[0], |ms[0]|, targets[j], |ms[j]|)
    requires At(mem', targets[0], ms[0]) && Loaded(mem', r, targets[1..], ms[1..])
    ensures Loaded(mem, r, targets, ms)
  {
    forall i: nat | i < |ms|
      ensures At(r, targets[i], ms[i])
    {
      if i == 0 {
        FirstIntact(mem', targets, ms, r);
      } else {
        assert At(r, targets[1..][i - 1], ms[1..][i - 1]);
      }
    }
    forall k: nat | k < |mem| && Outside(k, targets, ms)
      ensures r[k] == mem[k]
    {
      OutsideRest(k, targets, ms);
    }
  }

  lemma FirstIntact(mem': seq<byte>, targets: seq<nat>, ms: seq<seq<byte>>, r: seq<byte>)
    requires |targets| == |ms| > 0 && At(mem', targets[0], ms[0]) && Loaded(mem', r, targets[1..], ms[1..])
    requires forall j: nat :: 0 < j < |ms| ==> Disjoint(targets[0], |ms[0]|, targets[j], |ms[j]|)
    ensures At(r, targets[0], ms[0])
  {
    forall k: nat | k < |ms[0]|
      ensures r[targets[0] + k] == ms[0][k]
    {
      OutsideTail(targets[0] + k, targets, ms);
    }
  }

  lemma OutsideRest(k: nat, targets: seq<nat>, ms: seq<seq<byte>>)
    requires |targets| == |ms| > 0 && Outside(k, targets, ms)
    ensures Outside(k, targets[1..], ms[1..]) && !(targets[0] <= k < targets[0] + |ms[0]|)
  {
    forall i: nat | i < |ms| - 1
      ensures !(targets[1..][i] <= k < targets[1..][i] + |ms[1..][i]|)
    {
      assert !(targets[i + 1] <= k < targets[i + 1] + |ms[i + 1]|);
    }
  }

  lemma OutsideTail(k: nat, targets: seq<nat>, ms: seq<seq<byte>>)
    requires |targets| == |ms| > 0 && targets[0] <= k < targets[0] + |ms[0]|
    requires forall j: nat :: 0 < j < |ms| ==> Disjoint(targets[0], |ms[0]|, targets[j], |ms[j]|)
    ensures Outside(k, targets[1..], ms[1..])
  {
    forall i: nat | i < |ms| - 1
      ensures !(targets[1..][i] <= k < targets[1..][i] + |ms[1..][i]|)
    {
      assert Disjoint(targets[0], |ms[0]|, targets[i + 1], |ms[i + 1]|);
    }
  }

  /**
   * The round trip: an image of any kernel and any modules shorter than 2^32 bytes, placed at `base`, is loaded so that
   * each target holds exactly its module and no byte outside the targets changes.
   */
  lemma PackedModulesLoad(mem: seq<byte>, base: nat, kernel: seq<byte>, ms: seq<seq<byte>>, targets: seq<nat>)
    requires Small(ms) && |ms| < WORD32 && At(mem, base, Image(kernel, ms))
    requires TargetsOk(|mem|, base + |kernel|, |Image(kernel, ms)| - |kernel|, targets, ms)
    ensures var r := Load(mem, base + |kernel|, targets); r.Some? && Loaded(mem, r.value, targets, ms)
  {
    var payload := base + |kernel|;
    BehindKernel(mem, base, kernel, Word(|ms|), Records(ms));
    WordThen(mem, payload, |ms|, Records(ms));
    HeaderOff(|mem|, payload, targets, ms);
    RecordsLoad(mem, payload + 4, targets, ms);
  }

  lemma HeaderOff(size: nat, payload: nat, targets: seq<nat>, ms: seq<seq<byte>>)
    requires TargetsOk(size, payload, 4 + |Records(ms)|, targets, ms)
    ensures TargetsOk(size, payload + 4, |Records(ms)|, targets, ms)
  {
    forall i: nat | i < |ms|
      ensures Disjoint(payload + 4, |Records(ms)|, targets[i], |ms[i]|)
    {
      assert Disjoint(payload, 4 + |Records(ms)|, targets[i], |ms[i]|);
    }
  }

  lemma BehindKernel(mem: seq<byte>, base: nat, kernel: seq<byte>, w: seq<byte>, rest: seq<byte>)
    requires At(mem, base, kernel + w + rest)
    ensures At(mem, base + |kernel|, w + rest)
  {
    Assoc(kernel, w, rest);
    AtParts(mem, base, kernel, w + rest);
  }
}
