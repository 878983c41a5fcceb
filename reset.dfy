/** The reset plan of the generated `deinit`: between two runs of the
    benchmarked init work it zeroes the `formal` range of every FlagSet
    variable and clears the initdone byte of every package in `Inits`. */
module Reset {

  import opened Layout

  newtype byte = x: int | 0 <= x < 256

  /** `s` with the bytes at indices [off, off + n) set to zero. */
  function Zeroed(s: seq<byte>, off: nat, n: nat): (t: seq<byte>)
    ensures |t| == |s|
  {
    seq(|s|, j requires 0 <= j < |s| => if off <= j < off + n then 0 else s[j])
  }

  /** The byte loop of `deinit` for one variable. */
  method ZeroRange(a: array<byte>, off: nat, n: nat)
    requires off + n <= a.Length
    modifies a
    ensures a[..] == Zeroed(old(a[..]), off, n)
  {
    var i := off;
    while i < off + n
      invariant off <= i <= off + n
      invariant forall j :: 0 <= j < a.Length ==> a[j] == if off <= j < i then 0 else old(a[j])
    {
      a[i] := 0;
      i := i + 1;
    }
  }

  /** `deinit`: every variable of `toZero` has its range zeroed, every
      initdone byte is cleared, and nothing else changes. Each `vars[k]` is
      the variable named by `toZero[k]`, `TotalSize` bytes long, and
      `initdone[k]` is the initdone byte of the package `inits[k]`. */
  method Deinit(toZero: seq<ToZero>, vars: seq<array<byte>>, inits: seq<string>, initdone: array<byte>)
    requires |vars| == |toZero| && initdone.Length == |inits|
    requires forall k :: 0 <= k < |vars| ==>
      vars[k].Length == toZero[k].totalSize && toZero[k].offset + toZero[k].zeroSize <= toZero[k].totalSize
    requires forall j, k :: 0 <= j < k < |vars| ==> vars[j] != vars[k]
    requires forall k :: 0 <= k < |vars| ==> vars[k] != initdone
    modifies set k | 0 <= k < |vars| :: vars[k], initdone
    ensures forall k :: 0 <= k < |vars| ==>
      vars[k][..] == Zeroed(old(vars[k][..]), toZero[k].offset, toZero[k].zeroSize)
    ensures forall j :: 0 <= j < initdone.Length ==> initdone[j] == 0
  {
    var i := 0;
    while i < |vars|
      invariant 0 <= i <= |vars|
      invariant forall k :: 0 <= k < i ==>
        vars[k][..] == Zeroed(old(vars[k][..]), toZero[k].offset, toZero[k].zeroSize)
      invariant forall k :: i <= k < |vars| ==> vars[k][..] == old(vars[k][..])
      invariant initdone[..] == old(initdone[..])
    {
      ZeroRange(vars[i], toZero[i].offset, toZero[i].zeroSize);
      i := i + 1;
    }
    var j := 0;
    while j < initdone.Length
      invariant 0 <= j <= initdone.Length
      invariant forall k :: 0 <= k < j ==> initdone[k] == 0
      invariant forall k :: 0 <= k < |vars| ==>
        vars[k][..] == Zeroed(old(vars[k][..]), toZero[k].offset, toZero[k].zeroSize)
    {
      initdone[j] := 0;
      j := j + 1;
    }
  }

  /** Only the bytes of the range become zero; all others keep their value. */
  lemma ZeroedMeaning(s: seq<byte>, off: nat, n: nat, j: nat)
    requires j < |s|
    ensures off <= j < off + n ==> Zeroed(s, off, n)[j] == 0
    ensures !(off <= j < off + n) ==> Zeroed(s, off, n)[j] == s[j]
  {
  }
}
