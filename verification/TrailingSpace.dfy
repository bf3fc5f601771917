/**
 skip_trailing_space of myhttp/http/include/m_string.h in its two forms: 8 bytes at a time from
 the end, and by aligned words (the SPARC form). Both return the position that the plain
 backwards byte loop finds. `ptr` is the address of the buffer's first byte.
 */
module TrailingSpace {
  import opened Alignment
  import opened Korr

  const SPACE: Byte := 0x20
  const SPACES4: bv32 := 0x2020_2020
  const SPACES8: bv64 := 0x2020_2020_2020_2020

  // The plain backwards byte loop.
  function Trimmed(s: seq<Byte>): (n: nat)
    ensures n <= |s|
  {
    if s != [] && s[|s| - 1] == SPACE then Trimmed(s[..|s| - 1]) else |s|
  }

  /** What the position means: behind it there are only spaces, and before it there is none. */
  lemma {:induction false} TrimmedMeaning(s: seq<Byte>, n: nat)
    requires n <= |s|
    ensures n == Trimmed(s) <==>
            (forall i | n <= i < |s| :: s[i] == SPACE) && (n > 0 ==> s[n - 1] != SPACE)
  {
    if s != [] && s[|s| - 1] == SPACE {
      var t := s[..|s| - 1];
      if n < |s| {
        TrimmedMeaning(t, n);
        assert forall i | 0 <= i < |t| :: t[i] == s[i];
      }
    }
  }

  // Dropping spaces from the end does not move the position.
  lemma {:induction false} TrimmedDrop(s: seq<Byte>, n: nat)
    requires n <= |s| && forall i | n <= i < |s| :: s[i] == SPACE
    ensures Trimmed(s) == Trimmed(s[..n])
  {
    if n < |s| {
      TrimmedDrop(s[..|s| - 1], n);
      assert s[..|s| - 1][..n] == s[..n];
    } else {
      assert s[..n] == s;
    }
  }

  // The last loop of both forms.
  method TrimBytes(a: array<Byte>, from: nat) returns (end: nat)
    requires from <= a.Length
    ensures end == Trimmed(a[..from])
  {
    end := from;
    while end > 0 && a[end - 1] == SPACE
      invariant end <= from && Trimmed(a[..end]) == Trimmed(a[..from])
    {
      assert a[..end][..end - 1] == a[..end - 1];
      end := end - 1;
    }
  }

  lemma SpacesWord8(b: seq<Byte>)
    requires |b| == 8
    ensures Uint8Korr(b) == SPACES8 <==> forall i | 0 <= i < 8 :: b[i] == SPACE
  {
    LoadsAgree(b);
    SpacesBits8(b[0], b[1], b[2], b[3], b[4], b[5], b[6], b[7]);
  }

  lemma SpacesBits8(b0: Byte, b1: Byte, b2: Byte, b3: Byte, b4: Byte, b5: Byte, b6: Byte, b7: Byte)
    ensures ((b7 as bv64) << 56) | ((b6 as bv64) << 48) | ((b5 as bv64) << 40) | ((b4 as bv64) << 32) |
            ((b3 as bv64) << 24) | ((b2 as bv64) << 16) | ((b1 as bv64) << 8) | (b0 as bv64) == SPACES8
            <==> b0 == b1 == b2 == b3 == b4 == b5 == b6 == b7 == SPACE
  {
  }

  lemma SpacesBits4(b0: Byte, b1: Byte, b2: Byte, b3: Byte)
    ensures ((b3 as bv32) << 24) | ((b2 as bv32) << 16) | ((b1 as bv32) << 8) | (b0 as bv32) == SPACES4
            <==> b0 == b1 == b2 == b3 == SPACE
  {
  }

  // The form that reads 8 bytes at a time and ignores alignment.
  method SkipTrailingSpace(a: array<Byte>, len: nat) returns (end: nat)
    requires len <= a.Length
    ensures end == Trimmed(a[..len])
  {
    end := len;
    while end >= 8
      invariant end <= len && Trimmed(a[..end]) == Trimmed(a[..len])
    {
      SpacesWord8(a[end - 8..end]);
      if Uint8Korr(a[end - 8..end]) != SPACES8 {
        break;
      }
      assert forall i | end - 8 <= i < end :: a[i] == a[end - 8..end][i - (end - 8)];
      TrimmedDrop(a[..end], end - 8);
      assert a[..end][..end - 8] == a[..end - 8];
      end := end - 8;
    }
    end := TrimBytes(a, end);
  }

  // --- The aligned form ---

  // ((unsigned *)end)[-1] == SPACE_INT on a big-endian machine with ints of `word` bytes.
  predicate IsSpaceInt(b: seq<Byte>)
    requires |b| == 4 || |b| == 8
  {
    if |b| == 4 then
      ((b[0] as bv32) << 24) | ((b[1] as bv32) << 16) | ((b[2] as bv32) << 8) | (b[3] as bv32) == SPACES4
    else
      ((b[0] as bv64) << 56) | ((b[1] as bv64) << 48) | ((b[2] as bv64) << 40) | ((b[3] as bv64) << 32) |
      ((b[4] as bv64) << 24) | ((b[5] as bv64) << 16) | ((b[6] as bv64) << 8) | (b[7] as bv64) == SPACES8
  }

  lemma SpaceIntMeaning(b: seq<Byte>)
    requires |b| == 4 || |b| == 8
    ensures IsSpaceInt(b) <==> forall i | 0 <= i < |b| :: b[i] == SPACE
  {
    if |b| == 4 {
      SpacesBits4(b[3], b[2], b[1], b[0]);
    } else {
      SpacesBits8(b[7], b[6], b[5], b[4], b[3], b[2], b[1], b[0]);
    }
  }

  // A load of the word below address `end`: it must be aligned and lie inside the buffer.
  method LoadIsSpaceInt(a: array<Byte>, ptr: nat, end: nat, word: nat) returns (r: bool)
    requires IsWordSize(word)
    requires Aligned(end, word) && ptr + word <= end <= ptr + a.Length
    ensures r <==> forall i | end - ptr - word <= i < end - ptr :: a[i] == SPACE
  {
    var b := a[end - ptr - word..end - ptr];
    SpaceIntMeaning(b);
    assert forall i | 0 <= i < word :: b[i] == a[end - ptr - word + i];
    assert forall i | end - ptr - word <= i < end - ptr :: a[i] == b[i - (end - ptr - word)];
    r := IsSpaceInt(b);
  }

  // The loop over words, from the aligned address `from` down to `startWords`.
  method TrimWords(a: array<Byte>, ptr: nat, from: nat, startWords: nat, word: nat) returns (end: nat)
    requires IsWordSize(word) && Aligned(from, word) && Aligned(startWords, word)
    requires ptr <= startWords < from <= ptr + a.Length
    ensures startWords <= end <= from
    ensures forall i | end - ptr <= i < from - ptr :: a[i] == SPACE
  {
    end := from;
    while end > startWords
      invariant startWords <= end <= from && Aligned(end, word)
      invariant forall i | end - ptr <= i < from - ptr :: a[i] == SPACE
    {
      AlignedBelow(startWords, end, word);
      var spaces := LoadIsSpaceInt(a, ptr, end, word);
      if !spaces {
        break;
      }
      end := end - word;
    }
  }

  // `end` is an address here, as in the source; every access to `a` is checked to be inside it.
  method SkipTrailingSpaceAligned(a: array<Byte>, ptr: nat, len: nat, word: nat) returns (pos: nat)
    requires len <= a.Length && IsWordSize(word)
    ensures pos == Trimmed(a[..len])
  {
    var end := ptr + len;
    if len > 20 {
      var endWords := AlignDown(end, word);
      var startWords := AlignDown(ptr + word - 1, word);
      assert endWords > ptr;
      while end > endWords && a[end - 1 - ptr] == SPACE
        invariant endWords <= end <= ptr + len
        invariant forall i | end - ptr <= i < len :: a[i] == SPACE
      {
        end := end - 1;
      }
      if a[end - 1 - ptr] == SPACE && startWords < endWords {
        end := TrimWords(a, ptr, end, startWords, word);
      }
    }
    TrimmedDrop(a[..len], end - ptr);
    assert a[..len][..end - ptr] == a[..end - ptr];
    pos := TrimBytes(a, end - ptr);
  }
}
