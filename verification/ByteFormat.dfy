/**
  Binary files: little-endian words written one after the other, closed by a checksum of everything before it.

  A writer function takes the value and the bytes that follow it; a reader function returns the value and the
  bytes that are left.
*/
module ByteFormat {
  import opened Words
  import opened Common
  import opened Integrity

  datatype Taken<+T> = Taken(value: T, rest: seq<Byte>)

  /** Reads a word of `n` bytes. */
  function Take(s: seq<Byte>, n: nat, truncated: string): (r: Result<Taken<nat>>)
    ensures r.Ok? ==> r.value.value < Pow256(n)
  {
    if |s| < n then Err(truncated)
    else
      FromBytesBound(s[..n]);
      Ok(Taken(FromBytes(s[..n]), s[n..]))
  }

  /** Reads `n` raw bytes. */
  function TakeBytes(s: seq<Byte>, n: nat, truncated: string): (r: Result<Taken<seq<Byte>>>)
    ensures r.Ok? ==> |r.value.value| == n
  {
    if |s| < n then Err(truncated) else Ok(Taken(s[..n], s[n..]))
  }

  lemma TakeWritten(v: nat, n: nat, rest: seq<Byte>, truncated: string)
    requires v < Pow256(n)
    ensures Take(ToBytes(v, n) + rest, n, truncated) == Ok(Taken(v, rest))
  {
    var s := ToBytes(v, n) + rest;
    assert s[..n] == ToBytes(v, n) && s[n..] == rest;
    FromToBytes(v, n);
  }

  lemma TakeBytesWritten(b: seq<Byte>, rest: seq<Byte>, truncated: string)
    ensures TakeBytes(b + rest, |b|, truncated) == Ok(Taken(b, rest))
  {
    var s := b + rest;
    assert s[..|b|] == b && s[|b|..] == rest;
  }

  function TakeWord(s: seq<Byte>, truncated: string): (r: Result<Taken<Word>>) {
    Pow256Values();
    Take(s, 8, truncated)
  }

  function WordThen(v: Word, rest: seq<Byte>): seq<Byte> {
    ToBytes(v, 8) + rest
  }

  lemma WordWritten(v: Word, rest: seq<Byte>, truncated: string)
    ensures TakeWord(WordThen(v, rest), truncated) == Ok(Taken(v, rest))
  {
    Pow256Values();
    TakeWritten(v, 8, rest, truncated);
  }

  // ---------- many records ----------

  /** Reads `n` records; the first failure counts. */
  function TakeMany<T>(take: seq<Byte> -> Result<Taken<T>>, s: seq<Byte>, n: nat): (r: Result<Taken<seq<T>>>)
    ensures r.Ok? ==> |r.value.value| == n
    decreases n
  {
    if n == 0 then Ok(Taken([], s))
    else
      var first :- take(s);
      var more :- TakeMany(take, first.rest, n - 1);
      Ok(Taken([first.value] + more.value, more.rest))
  }

  function ManyThen<T>(write: (T, seq<Byte>) -> seq<Byte>, xs: seq<T>, rest: seq<Byte>): seq<Byte> {
    if xs == [] then rest else write(xs[0], ManyThen(write, xs[1..], rest))
  }

  /** Whatever follows it, a written value that fits the format is read back. */
  ghost predicate Inverse<T(!new)>(take: seq<Byte> -> Result<Taken<T>>, write: (T, seq<Byte>) -> seq<Byte>,
                                   fits: T -> bool)
  {
    forall x: T, rest: seq<Byte> :: fits(x) ==> take(write(x, rest)) == Ok(Taken(x, rest))
  }

  lemma {:induction false} ManyWritten<T(!new)>(take: seq<Byte> -> Result<Taken<T>>,
      write: (T, seq<Byte>) -> seq<Byte>, fits: T -> bool, xs: seq<T>, rest: seq<Byte>)
    requires Inverse(take, write, fits) && forall i :: 0 <= i < |xs| ==> fits(xs[i])
    ensures TakeMany(take, ManyThen(write, xs, rest), |xs|) == Ok(Taken(xs, rest))
  {
    if xs != [] {
      ManyWritten(take, write, fits, xs[1..], rest);
      assert [xs[0]] + xs[1..] == xs;
    }
  }

  /** Whatever is read was written so. */
  ghost predicate ReadsBack<T(!new)>(take: seq<Byte> -> Result<Taken<T>>, write: (T, seq<Byte>) -> seq<Byte>,
                                     fits: T -> bool)
  {
    forall s: seq<Byte> :: take(s).Ok? ==>
      fits(take(s).value.value) && s == write(take(s).value.value, take(s).value.rest)
  }

  lemma {:induction false} ManyReadBack<T(!new)>(take: seq<Byte> -> Result<Taken<T>>,
      write: (T, seq<Byte>) -> seq<Byte>, fits: T -> bool, s: seq<Byte>, n: nat)
    requires ReadsBack(take, write, fits)
    ensures var r := TakeMany(take, s, n);
            r.Ok? ==> s == ManyThen(write, r.value.value, r.value.rest)
                      && forall i :: 0 <= i < n ==> fits(r.value.value[i])
    decreases n
  {
    var r := TakeMany(take, s, n);
    if r.Ok? && n > 0 {
      var first := take(s).value;
      ManyReadBack(take, write, fits, first.rest, n - 1);
      assert r.value.value[1..] == TakeMany(take, first.rest, n - 1).value.value;
    }
  }

  lemma TakeReadsBack(s: seq<Byte>, n: nat, truncated: string)
    ensures var r := Take(s, n, truncated); r.Ok? ==> s == ToBytes(r.value.value, n) + r.value.rest
  {
    if |s| >= n {
      ToFromBytes(s[..n]);
      assert s == s[..n] + s[n..];
    }
  }

  lemma BytesReadBack(s: seq<Byte>, n: nat, truncated: string)
    ensures var r := TakeBytes(s, n, truncated); r.Ok? ==> s == r.value.value + r.value.rest
  {}

  /** Values of the second kind are refused with this error, whatever follows them. */
  ghost predicate Refuses<T(!new)>(take: seq<Byte> -> Result<Taken<T>>, write: (T, seq<Byte>) -> seq<Byte>,
                                   bad: T -> bool, error: string)
  {
    forall x: T, rest: seq<Byte> :: bad(x) ==> take(write(x, rest)) == Err(error)
  }

  /** One refused record refuses them all. */
  lemma {:induction false} ManyRefused<T(!new)>(take: seq<Byte> -> Result<Taken<T>>,
      write: (T, seq<Byte>) -> seq<Byte>, fits: T -> bool, bad: T -> bool, error: string, xs: seq<T>, i: nat,
      rest: seq<Byte>)
    requires Inverse(take, write, fits) && Refuses(take, write, bad, error)
    requires (forall k :: 0 <= k < |xs| ==> fits(xs[k]) || bad(xs[k])) && i < |xs| && bad(xs[i])
    ensures TakeMany(take, ManyThen(write, xs, rest), |xs|) == Err(error)
  {
    var tail := ManyThen(write, xs[1..], rest);
    if bad(xs[0]) {
      assert take(write(xs[0], tail)) == Err(error);
    } else {
      ManyRefused(take, write, fits, bad, error, xs[1..], i - 1, rest);
      assert take(write(xs[0], tail)) == Ok(Taken(xs[0], tail));
    }
  }

  /** What is written after a value comes after its bytes. */
  ghost predicate Appends<T(!new)>(write: (T, seq<Byte>) -> seq<Byte>) {
    forall x: T, s: seq<Byte>, rest: seq<Byte> :: write(x, s) + rest == write(x, s + rest)
  }

  lemma {:induction false} ManyAppends<T(!new)>(write: (T, seq<Byte>) -> seq<Byte>, xs: seq<T>, s: seq<Byte>,
                                                rest: seq<Byte>)
    requires Appends(write)
    ensures ManyThen(write, xs, s) + rest == ManyThen(write, xs, s + rest)
  {
    if xs != [] {
      ManyAppends(write, xs[1..], s, rest);
      assert write(xs[0], ManyThen(write, xs[1..], s)) + rest
          == write(xs[0], ManyThen(write, xs[1..], s) + rest);
    }
  }

  /** What is still to be read after `done`. */
  ghost function Prepended<T>(done: seq<T>, r: Result<Taken<seq<T>>>): Result<Taken<seq<T>>> {
    match r
    case Err(e) => Err(e)
    case Ok(t) => Ok(Taken(done + t.value, t.rest))
  }

  lemma PrependStep<T>(take: seq<Byte> -> Result<Taken<T>>, s: seq<Byte>, n: nat, done: seq<T>)
    requires n > 0
    ensures take(s).Err? ==> Prepended(done, TakeMany(take, s, n)) == Err(take(s).reason)
    ensures take(s).Ok? ==>
      Prepended(done, TakeMany(take, s, n))
      == Prepended(done + [take(s).value.value], TakeMany(take, take(s).value.rest, n - 1))
  {
    if take(s).Ok? && TakeMany(take, take(s).value.rest, n - 1).Ok? {
      var first, more := take(s).value.value, TakeMany(take, take(s).value.rest, n - 1).value.value;
      assert done + ([first] + more) == done + [first] + more;
    }
  }

  lemma PrependNothing<T>(r: Result<Taken<seq<T>>>)
    ensures Prepended([], r) == r
  {
    if r.Ok? {
      assert [] + r.value.value == r.value.value;
    }
  }

  lemma PrependLast<T>(take: seq<Byte> -> Result<Taken<T>>, s: seq<Byte>, done: seq<T>)
    ensures Prepended(done, TakeMany(take, s, 0)) == Ok(Taken(done, s))
  {
    assert done + [] == done;
  }

  // ---------- checksums ----------

  function Sealed(payload: seq<Byte>): seq<Byte> {
    payload + ToBytes(AbsorbAll(OFFSET, payload), 8)
  }

  /** The last eight bytes are the checksum of the others. */
  predicate Intact(file: seq<Byte>) {
    |file| >= 8 && FromBytes(file[|file| - 8..]) == AbsorbAll(OFFSET, file[..|file| - 8])
  }

  lemma SealedIsIntact(payload: seq<Byte>)
    ensures Intact(Sealed(payload))
  {
    var file := Sealed(payload);
    WordBytes(AbsorbAll(OFFSET, payload));
    assert file[..|file| - 8] == payload && file[|file| - 8..] == ToBytes(AbsorbAll(OFFSET, payload), 8);
  }

  /** A change of any single byte, of the payload or of the checksum, is noticed. */
  lemma OneByteBreaksSeal(payload: seq<Byte>, i: nat, b: Byte)
    requires i < |Sealed(payload)| && b != Sealed(payload)[i]
    ensures !Intact(Sealed(payload)[i := b])
  {
    var n, h := |payload|, AbsorbAll(OFFSET, payload);
    var damaged := Sealed(payload)[i := b];
    var head, tail := damaged[..n], damaged[n..];
    if i < n {
      assert head == payload[i := b] && tail == ToBytes(h, 8);
      OneByteChanges(OFFSET, payload, i, b);
      WordBytes(h);
    } else {
      assert head == payload && tail == ToBytes(h, 8)[i - n := b];
      ToFromBytes(tail);
    }
  }

  /** The running checksum over buffers of 8192 bytes. */
  method ChecksumPrefix(bytes: seq<Byte>) returns (hash: Word)
    ensures hash == AbsorbAll(OFFSET, bytes)
  {
    hash := OFFSET;
    var remaining: nat := |bytes|;
    while remaining > 0
      invariant remaining <= |bytes|
      invariant hash == AbsorbAll(OFFSET, bytes[..|bytes| - remaining])
    {
      var pos := |bytes| - remaining;
      var got := Min(remaining, 8192);
      for i := 0 to got
        invariant hash == AbsorbAll(OFFSET, bytes[..pos + i])
      {
        var pre := bytes[..pos + i + 1];
        assert pre[..|pre| - 1] == bytes[..pos + i];
        hash := Absorb(hash, bytes[pos + i]);
      }
      remaining := remaining - got;
    }
    assert bytes[..|bytes|] == bytes;
  }

  /** Why the file is rejected before its contents are looked at, if it is. */
  function ChecksumError(file: seq<Byte>, missing: string, mismatch: string): Option<string> {
    if |file| < 8 then Some(missing) else if Intact(file) then None else Some(mismatch)
  }

  method VerifyChecksum(file: seq<Byte>, missing: string, mismatch: string) returns (r: Option<string>)
    ensures r == ChecksumError(file, missing, mismatch)
  {
    if |file| < 8 {
      return Some(missing);
    }
    var stored := FromBytes(file[|file| - 8..]);
    var actual := ChecksumPrefix(file[..|file| - 8]);
    r := if stored != actual then Some(mismatch) else None;
  }

  // ---------- reading and writing through a position ----------

  class Reader {
    const bytes: seq<Byte>
    var pos: nat

    ghost predicate Valid()
      reads this
    {
      pos <= |bytes|
    }

    ghost function Rest(): seq<Byte>
      reads this
      requires Valid()
    {
      bytes[pos..]
    }

    /** The value is the one `t` takes, and the position is after it. */
    ghost predicate Took<T>(r: Result<T>, t: Result<Taken<T>>)
      reads this
    {
      && Valid()
      && match t
         case Err(e) => r == Err(e)
         case Ok(x) => r == Ok(x.value) && Rest() == x.rest
    }

    constructor (bytes: seq<Byte>)
      ensures Valid() && this.bytes == bytes && Rest() == bytes
    {
      this.bytes := bytes;
      pos := 0;
    }

    method ReadBytes(n: nat, truncated: string) returns (r: Result<seq<Byte>>)
      requires Valid()
      modifies this
      ensures Took(r, TakeBytes(old(Rest()), n, truncated))
    {
      if |bytes| - pos < n {
        return Err(truncated);
      }
      assert Rest()[..n] == bytes[pos..pos + n];
      assert Rest()[n..] == bytes[pos + n..];
      r := Ok(bytes[pos..pos + n]);
      pos := pos + n;
    }

    method ReadPod(n: nat, truncated: string) returns (r: Result<nat>)
      requires Valid()
      modifies this
      ensures Took(r, Take(old(Rest()), n, truncated))
    {
      if |bytes| - pos < n {
        return Err(truncated);
      }
      assert Rest()[..n] == bytes[pos..pos + n];
      assert Rest()[n..] == bytes[pos + n..];
      r := Ok(FromBytes(bytes[pos..pos + n]));
      pos := pos + n;
    }

    method ReadWord(truncated: string) returns (r: Result<Word>)
      requires Valid()
      modifies this
      ensures Took(r, TakeWord(old(Rest()), truncated))
    {
      Pow256Values();
      r := ReadPod(8, truncated);
    }
  }

  class Writer {
    var out: seq<Byte>

    constructor ()
      ensures out == []
    {
      out := [];
    }

    /** `rest` is what is to be written afterwards. */
    method WriteBytes(b: seq<Byte>, ghost rest: seq<Byte>)
      modifies this
      ensures out == old(out) + b
      ensures out + rest == old(out) + (b + rest)
    {
      assert out + b + rest == out + (b + rest);
      out := out + b;
    }

    method WritePod(v: nat, n: nat, ghost rest: seq<Byte>)
      modifies this
      ensures out == old(out) + ToBytes(v, n)
      ensures out + rest == old(out) + (ToBytes(v, n) + rest)
    {
      WriteBytes(ToBytes(v, n), rest);
    }
  }
}
