/** utils.c: the kernel's own memset, memcpy and strlen, and the port-output
    primitive `outb`, whose effect is recorded as a log of writes.

    memset and memcpy work on one array of cells: `off`, `dst` and `src` are
    cell indices into it, and `len` counts cells. The byte-wise C loops are
    applied to arrays of wider cells (the 16-bit VGA cells, the 8-byte IDT
    gates) only with whole-cell lengths and with the value 0, so a cell-wise
    copy or fill says the same thing. */
module Utils {
  import opened CTypes

  // ---------------------------------------------------------------------
  // memset

  /** memset (utils.c:31-39): cells off .. off+len-1 take `val`; no other cell changes. */
  method Memset<T>(mem: array<T>, off: nat, val: T, len: nat)
    requires off + len <= mem.Length
    modifies mem
    ensures mem[..] == old(mem[..off]) + seq(len, _ => val) + old(mem[off + len..])
  {
    var p := off;
    var n := len;
    while n > 0
      invariant p + n == off + len
      invariant forall k :: 0 <= k < mem.Length ==> mem[k] == (if off <= k < p then val else old(mem[k]))
    {
      mem[p] := val;
      p := p + 1;
      n := n - 1;
    }
    assert mem[..] == old(mem[..off]) + seq(len, _ => val) + old(mem[off + len..]);
  }

  // ---------------------------------------------------------------------
  // memcpy

  /** What the ascending copy loop of memcpy leaves in memory: one cell at a time, from the
      lowest address up, each read taking the value memory holds at that moment. */
  function ForwardCopy<T>(m: seq<T>, dst: nat, src: nat, len: nat): (r: seq<T>)
    requires dst + len <= |m| && src + len <= |m|
    ensures |r| == |m|
    decreases len
  {
    if len == 0 then m else ForwardCopy(m[dst := m[src]], dst + 1, src + 1, len - 1)
  }

  /** The ascending copy never writes outside [dst, dst+len); and when the destination does
      not start above the source, or the two do not overlap, every destination cell gets
      the source cell's original value. */
  lemma {:induction false} ForwardCopyCorrect<T>(m: seq<T>, dst: nat, src: nat, len: nat)
    requires dst + len <= |m| && src + len <= |m|
    ensures forall k :: 0 <= k < |m| && !(dst <= k < dst + len) ==> ForwardCopy(m, dst, src, len)[k] == m[k]
    ensures dst <= src || src + len <= dst ==>
              forall k :: dst <= k < dst + len ==> ForwardCopy(m, dst, src, len)[k] == m[src + (k - dst)]
    decreases len
  {
    if len > 0 {
      var m' := m[dst := m[src]];
      ForwardCopyCorrect(m', dst + 1, src + 1, len - 1);
      if dst <= src || src + len <= dst {
        forall k | dst <= k < dst + len
          ensures ForwardCopy(m, dst, src, len)[k] == m[src + (k - dst)]
        {
          if k > dst {
            assert ForwardCopy(m', dst + 1, src + 1, len - 1)[k] == m'[src + 1 + (k - (dst + 1))];
          }
        }
      }
    }
  }

  /** When the destination starts inside the source, the ascending copy does not move the
      block: copying [1, 2, 3] one cell up repeats the first cell. */
  lemma OverlappingCopyUpRepeats()
    ensures ForwardCopy([1, 2, 3], 1, 0, 2) == [1, 1, 1]
  {
    assert ForwardCopy([1, 2, 3], 1, 0, 2) == ForwardCopy([1, 1, 3], 2, 1, 1);
    assert ForwardCopy([1, 1, 3], 2, 1, 1) == ForwardCopy([1, 1, 1], 3, 2, 0);
  }

  /** memcpy (utils.c:41-50), with source and destination in the same memory. */
  method Memcpy<T>(mem: array<T>, dst: nat, src: nat, len: nat)
    requires dst + len <= mem.Length && src + len <= mem.Length
    modifies mem
    ensures mem[..] == ForwardCopy(old(mem[..]), dst, src, len)
    ensures forall k :: 0 <= k < mem.Length && !(dst <= k < dst + len) ==> mem[k] == old(mem[k])
    ensures dst <= src || src + len <= dst ==>
              forall k :: dst <= k < dst + len ==> mem[k] == old(mem[src + (k - dst)])
  {
    ForwardCopyCorrect(mem[..], dst, src, len);
    var d: nat, s: nat, n: nat := dst, src, len;
    while n > 0
      invariant d == dst + (len - n) && s == src + (len - n)
      invariant d + n <= mem.Length && s + n <= mem.Length
      invariant ForwardCopy(mem[..], d, s, n) == ForwardCopy(old(mem[..]), dst, src, len)
    {
      mem[d] := mem[s];
      d, s, n := d + 1, s + 1, n - 1;
    }
  }

  // ---------------------------------------------------------------------
  // strlen

  /** strlen (utils.c:52-58): the index of the first NUL byte. */
  method Strlen(str: seq<u8>) returns (n: nat)
    requires 0 in str
    ensures n < |str| && str[n] == 0
    ensures forall k :: 0 <= k < n ==> str[k] != 0
  {
    n := 0;
    while str[n] != 0
      invariant n < |str|
      invariant 0 in str[n..]
      decreases |str| - n
      invariant forall k :: 0 <= k < n ==> str[k] != 0
    {
      n := n + 1;
    }
  }

  /** The C string held in `s`: the bytes before its first NUL (all of `s` if it has none). */
  function CString(s: seq<u8>): (r: seq<u8>)
    ensures |r| <= |s| && r == s[..|r|]
    ensures 0 !in r
    ensures |r| < |s| ==> s[|r|] == 0
  {
    if s == [] || s[0] == 0 then [] else [s[0]] + CString(s[1..])
  }

  /** A terminated string whose bytes are not NUL reads back as exactly those bytes. */
  lemma {:induction false} CStringOfTerminated(body: seq<u8>, rest: seq<u8>)
    requires 0 !in body
    ensures CString(body + [0] + rest) == body
    decreases |body|
  {
    if body != [] {
      assert (body + [0] + rest)[1..] == body[1..] + [0] + rest;
      CStringOfTerminated(body[1..], rest);
    }
  }

  // ---------------------------------------------------------------------
  // outb

  /** One `outb(value, port)`. */
  datatype PortWrite = PortWrite(value: u8, port: u16)

  /** The I/O port space, seen only through the writes made to it, in order. */
  class Ports {
    var log: seq<PortWrite>

    constructor ()
      ensures log == []
    {
      log := [];
    }

    /** outb (utils.c:68-71). */
    method Outb(value: u8, port: u16)
      modifies this
      ensures log == old(log) + [PortWrite(value, port)]
    {
      log := log + [PortWrite(value, port)];
    }
  }
}
