/**
 * The scrolling marquee of the live mode: a window of `ScrollWidth`
 * characters over the summary line, read circularly from the scroll offset,
 * and the offset's advance after each frame.
 *
 * Characters are Unicode scalar values, as Rust's `chars()` yields them.
 * The window is indexed by character, but the offset is reset against the
 * line's length in UTF-8 bytes (`str.len()`), so `ByteLen` is kept apart.
 */
module Marquee {
  const ScrollWidth: nat := 40

  /** The number of bytes of one character in UTF-8. */
  function Utf8Width(c: char): (w: nat)
    ensures 1 <= w <= 4
    ensures w == 1 <==> (c as int) < 0x80
  {
    if (c as int) < 0x80 then 1
    else if (c as int) < 0x800 then 2
    else if (c as int) < 0x1_0000 then 3
    else 4
  }

  /** `str.len()`: the length of the line in UTF-8 bytes. */
  function ByteLen(s: string): (n: nat)
    ensures |s| <= n <= 4 * |s|
    decreases |s|
  {
    if s == [] then 0 else Utf8Width(s[0]) + ByteLen(s[1..])
  }

  predicate IsAscii(s: string) {
    forall i :: 0 <= i < |s| ==> (s[i] as int) < 0x80
  }

  /** On an ASCII line, bytes and characters agree, and beyond ASCII the byte count is strictly larger. */
  lemma {:induction false} ByteLenAscii(s: string)
    ensures ByteLen(s) == |s| <==> IsAscii(s)
    decreases |s|
  {
    if s != [] {
      ByteLenAscii(s[1..]);
      if IsAscii(s) {
        assert IsAscii(s[1..]) by {
          forall i | 0 <= i < |s[1..]| ensures (s[1..][i] as int) < 0x80 {
            assert s[1..][i] == s[i + 1];
          }
        }
      } else {
        var i :| 0 <= i < |s| && (s[i] as int) >= 0x80;
        if i > 0 {
          assert s[1..][i - 1] == s[i];
        }
      }
    }
  }

  /** The characters printed for one frame: `width` characters starting at `offset`, wrapping around the line. */
  function Window(s: string, offset: nat, width: nat): (w: string)
    requires |s| > 0
    ensures |w| == width
    ensures forall k :: 0 <= k < width ==> w[k] == s[(offset + k) % |s|]
    decreases width
  {
    if width == 0 then [] else [s[offset % |s|]] + Window(s, offset + 1, width - 1)
  }

  /** The print loop of one frame: one character per step, `str.chars().nth(i % n_chars)`. */
  method DrawWindow(s: string, offset: nat) returns (line: string)
    requires |s| > 0
    ensures line == Window(s, offset, ScrollWidth)
  {
    var nChars := |s|;
    line := [];
    for i := offset to offset + ScrollWidth
      invariant |line| == i - offset
      invariant forall k :: 0 <= k < |line| ==> line[k] == s[(offset + k) % nChars]
    {
      line := line + [s[i % nChars]];
    }
  }

  /** The offset after a frame: one further, or back to 1 (not 0) once it reaches the byte length. An empty line draws nothing and keeps the offset. */
  function NextOffset(offset: nat, s: string): (next: nat)
    ensures s == [] ==> next == offset
    ensures s != [] ==> next == 1 || (next == offset + 1 && next < ByteLen(s))
    ensures s != [] && ByteLen(s) >= 2 ==> 1 <= next < ByteLen(s)
  {
    if s == [] then offset
    else if offset + 1 >= ByteLen(s) then 1
    else offset + 1
  }

  /** The offset after `k` frames over the same line. */
  function ScrollTimes(offset: nat, s: string, k: nat): nat
    decreases k
  {
    if k == 0 then offset else ScrollTimes(NextOffset(offset, s), s, k - 1)
  }

  /** Past the first frame the offset cycles through 1 .. ByteLen(s) - 1 with period ByteLen(s) - 1: it never comes back to 0. */
  lemma OffsetCycle(offset: nat, s: string, k: nat)
    requires ByteLen(s) >= 2 && 1 <= offset < ByteLen(s)
    ensures ScrollTimes(offset, s, k) == 1 + (offset - 1 + k) % (ByteLen(s) - 1)
  {
    var p := ByteLen(s) - 1;
    ScrollTimesIsCycle(offset, s, k, p);
    CycleClosedForm(offset, p, k);
  }

  /** The offset after `k` steps of a cycle 1, 2, .., p, 1, 2, .. */
  function CycleTimes(offset: nat, p: nat, k: nat): nat
    decreases k
  {
    if k == 0 then offset else CycleTimes(if offset + 1 >= p + 1 then 1 else offset + 1, p, k - 1)
  }

  lemma {:induction false} ScrollTimesIsCycle(offset: nat, s: string, k: nat, p: nat)
    requires s != [] && p == ByteLen(s) - 1
    ensures ScrollTimes(offset, s, k) == CycleTimes(offset, p, k)
    decreases k
  {
    if k > 0 {
      ScrollTimesIsCycle(NextOffset(offset, s), s, k - 1, p);
    }
  }

  lemma {:induction false} CycleClosedForm(offset: nat, p: nat, k: nat)
    requires 1 <= offset <= p
    ensures CycleTimes(offset, p, k) == 1 + (offset - 1 + k) % p
    decreases k
  {
    if k > 0 {
      var next := if offset + 1 >= p + 1 then 1 else offset + 1;
      CycleClosedForm(next, p, k - 1);
      if offset == p {
        ModShift(k - 1, p);
      }
    }
  }

  lemma ModShift(x: nat, p: nat)
    requires p > 0
    ensures (x + p) % p == x % p
  {
    var q, r := x / p, x % p;
    assert x == q * p + r;
    assert x + p == (q + 1) * p + r;
    ModUnique(x + p, q + 1, r, p);
  }

  /** Division with remainder has one answer. */
  lemma ModUnique(a: int, q: int, r: int, p: int)
    requires p > 0 && 0 <= r < p && a == q * p + r
    ensures a % p == r
  {
    var q', r' := a / p, a % p;
    assert a == q' * p + r';
    assert (q - q') * p == r' - r;
    // a nonzero q - q' would make |r' - r| at least p
    if q - q' >= 1 {
    } else if q - q' <= -1 {
    }
  }

  /** The first frame moves the offset from its initial 0 to 1, whatever the line. */
  lemma FirstFrameOffset(s: string)
    requires s != []
    ensures NextOffset(0, s) == 1
  {
  }

  /** A window as wide as the line is the line rotated to start at the offset: every character appears exactly once. */
  lemma FullWindowIsRotation(s: string, offset: nat)
    requires |s| > 0
    ensures Window(s, offset, |s|) == s[offset % |s|..] + s[..offset % |s|]
    ensures multiset(Window(s, offset, |s|)) == multiset(s)
  {
    var n := |s|;
    var c := offset % n;
    var w := Window(s, offset, n);
    var rotated := s[c..] + s[..c];
    forall k | 0 <= k < n ensures w[k] == rotated[k] {
      RotatedIndex(offset, k, n);
    }
    assert w == rotated;
    assert s == s[..c] + s[c..];
  }

  /** Where position k of a window of the full width falls in the line. */
  lemma RotatedIndex(offset: nat, k: nat, n: nat)
    requires 0 <= k < n
    ensures var c := offset % n;
            (offset + k) % n == if k < n - c then c + k else c + k - n
  {
    var c := offset % n;
    ModOfSum(offset, k, n);
    if k < n - c {
      ModUnique(c + k, 0, c + k, n);
    } else {
      ModUnique(c + k, 1, c + k - n, n);
    }
  }

  lemma ModOfSum(a: nat, k: nat, n: nat)
    requires n > 0
    ensures (a + k) % n == (a % n + k) % n
  {
    var q := a / n;
    assert a == q * n + a % n;
    ModMultiple(a % n + k, q, n);
  }

  lemma {:induction false} ModMultiple(x: nat, q: nat, n: nat)
    requires n > 0
    ensures (x + q * n) % n == x % n
    decreases q
  {
    if q > 0 {
      ModMultiple(x, q - 1, n);
      assert x + q * n == (x + (q - 1) * n) + n;
      ModShift(x + (q - 1) * n, n);
    }
  }
}
