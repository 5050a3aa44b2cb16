/** The streaming UTF-8 decoder of the terminal, and the two encoders it has to agree with. */
module Utf8 {
  import ParserRules

  type Byte = ParserRules.Byte

  const INVALID: nat := 0xfffd

  // ----- encoding -----

  /** The number of bytes of a code point (section 2 of RFC 2279). */
  function SeqLen(cp: nat): (n: nat)
    ensures 1 <= n <= 6
  {
    if cp < 0x80 then 1
    else if cp < 0x800 then 2
    else if cp < 0x10000 then 3
    else if cp < 0x200000 then 4
    else if cp < 0x4000000 then 5
    else 6
  }

  /** `n` continuation bytes for the low bits of a code point. */
  function Tail(cp: nat, n: nat): (r: seq<Byte>)
    ensures |r| == n
  {
    if n == 0 then [] else Tail(cp / 64, n - 1) + [0x80 + cp % 64]
  }

  /** What is left of a code point for its first byte. */
  function High(cp: nat, n: nat): nat { if n == 0 then cp else High(cp / 64, n - 1) }

  function LeadMark(n: nat): nat {
    if n == 2 then 0xc0 else if n == 3 then 0xe0 else if n == 4 then 0xf0 else if n == 5 then 0xf8 else 0xfc
  }

  /** How many values the first byte of an n-byte sequence has room for. */
  function LeadRoom(n: nat): nat {
    if n == 2 then 32 else if n == 3 then 16 else if n == 4 then 8 else if n == 5 then 4 else 2
  }

  /** The first code point that needs more than n bytes. */
  function Limit(n: nat): nat {
    if n == 1 then 0x80 else if n == 2 then 0x800 else if n == 3 then 0x10000 else if n == 4 then 0x200000
    else if n == 5 then 0x4000000 else 0x80000000
  }

  function Fill(cp: nat): (r: seq<Byte>)
    ensures |r| == SeqLen(cp)
  {
    var n := SeqLen(cp);
    if n == 1 then [cp] else [LeadMark(n) + High(cp, n - 1) % LeadRoom(n)] + Tail(cp, n - 1)
  }

  /** Fills the buffer backwards, six bits at a time. */
  method FillUtf8(codepoint: nat, str: array<Byte>) returns (nbytes: nat)
    requires str.Length >= 6
    modifies str
    ensures nbytes == SeqLen(codepoint) && str[..nbytes] == Fill(codepoint)
  {
    hide Tail, High;
    nbytes := SeqLen(codepoint);
    var b, rest := nbytes, codepoint;
    TailNone(codepoint);
    while b > 1
      invariant 1 <= b <= nbytes && rest == High(codepoint, nbytes - b)
      invariant str[b..nbytes] == Tail(codepoint, nbytes - b)
    {
      b := b - 1;
      TailSplit(codepoint, nbytes - b);
      HighStep(codepoint, nbytes - b - 1);
      ghost var done := str[b + 1..nbytes];
      str[b] := 0x80 + rest % 64;
      assert str[b..nbytes] == [str[b]] + done;
      rest := rest / 64;
    }
    ghost var tail := str[1..nbytes];
    match nbytes {
      case 1 => str[0] := rest % 128;
      case 2 => str[0] := 0xc0 + rest % 32;
      case 3 => str[0] := 0xe0 + rest % 16;
      case 4 => str[0] := 0xf0 + rest % 8;
      case 5 => str[0] := 0xf8 + rest % 4;
      case _ => str[0] := 0xfc + rest % 2;
    }
    assert str[..nbytes] == [str[0]] + tail;
  }

  lemma {:induction false} HighStep(cp: nat, n: nat)
    ensures High(cp, n + 1) == High(cp, n) / 64
  {
    if n > 0 { HighStep(cp / 64, n - 1); }
  }

  /** The first of n continuation bytes holds the highest bits. */
  lemma {:induction false} TailSplit(cp: nat, n: nat)
    requires n > 0
    ensures Tail(cp, n) == [0x80 + High(cp, n - 1) % 64] + Tail(cp, n - 1)
  {
    if n > 1 {
      TailSplit(cp / 64, n - 1);
      assert [0x80 + High(cp / 64, n - 2) % 64] + Tail(cp / 64, n - 2) + [0x80 + cp % 64]
          == [0x80 + High(cp / 64, n - 2) % 64] + (Tail(cp / 64, n - 2) + [0x80 + cp % 64]);
    }
  }

  /** The Go encoder; a byte keeps the low bits of what is put into it. */
  function RuneToUtf8(r: nat): seq<Byte> {
    if r < 0x80 then [r]
    else if r < 0x800 then [0xc0 + r / 64, 0x80 + r % 64]
    else if r < 0x10000 then [0xe0 + r / 4096, 0x80 + r / 64 % 64, 0x80 + r % 64]
    else [0xf0 + r / 262144 % 16, 0x80 + r / 4096 % 64, 0x80 + r / 64 % 64, 0x80 + r % 64]
  }

  // ----- decoding -----

  /** A code point being collected: bytes still missing, bytes in all, bits so far. */
  datatype Decoder = Decoder(remaining: nat, total: nat, cp: nat)

  const IDLE: Decoder := Decoder(0, 0, 0)

  /** Controls end a run of text; the decoder stops before them. */
  predicate IsStop(c: Byte) { c < 0x20 || c == 0x7f }

  /** A code point once complete: overlong forms, surrogates and non-characters are replaced. */
  function Checked(total: nat, cp: nat): nat {
    if 2 <= total <= 6 && cp < Limit(total - 1) then INVALID
    else if 0xd800 <= cp <= 0xdfff || cp == 0xfffe || cp == 0xffff then INVALID
    else cp
  }

  function Begin(d: Decoder, total: nat, bits: nat): (Decoder, seq<nat>)
    requires total > 0
  {
    (Decoder(total - 1, total, bits), if d.remaining != 0 then [INVALID] else [])
  }

  /** The decoder after one byte of text, and the code points that come out. */
  function Take(d: Decoder, c: Byte): (Decoder, seq<nat>) {
    if c < 0x80 then (d.(remaining := 0), if d.remaining != 0 then [INVALID, c] else [c])
    else if c < 0xc0 then
      if d.remaining == 0 then (d, [INVALID])
      else if d.remaining > 1 then (d.(remaining := d.remaining - 1, cp := d.cp * 64 + c % 64), [])
      else
        var cp := Checked(d.total, d.cp * 64 + c % 64);
        (d.(remaining := 0, cp := cp), [cp])
    else if c < 0xe0 then Begin(d, 2, c % 32)
    else if c < 0xf0 then Begin(d, 3, c % 16)
    else if c < 0xf8 then Begin(d, 4, c % 8)
    else if c < 0xfc then Begin(d, 5, c % 4)
    else if c < 0xfe then Begin(d, 6, c % 2)
    else (d, [INVALID])
  }

  /** Exactly which bytes give nothing: those that begin a sequence between characters, and those that continue one
      without ending it. */
  lemma QuietExactlyWhen(d: Decoder, c: Byte)
    ensures Take(d, c).1 == [] <==>
              if d.remaining == 0 then 0xc0 <= c < 0xfe else 0x80 <= c < 0xc0 && d.remaining > 1
  {
  }

  /** A byte that cannot stand where it stands gives a replacement, and an ASCII byte itself after it: a continuation
      byte between characters, any other byte in a sequence, and the bytes that are never used. */
  lemma Misplaced(d: Decoder, c: Byte)
    ensures d.remaining == 0 && 0x80 <= c < 0xc0 ==> Take(d, c) == (d, [INVALID])
    ensures d.remaining != 0 && 0xc0 <= c < 0xfe ==> Take(d, c).1 == [INVALID] && Take(d, c).0.remaining > 0
    ensures d.remaining != 0 && c < 0x80 ==> Take(d, c).1 == [INVALID, c] && Take(d, c).0.remaining == 0
    ensures c >= 0xfe ==> Take(d, c) == (d, [INVALID])
  {
  }

  function Feed(d: Decoder, bytes: seq<Byte>): (Decoder, seq<nat>)
    decreases |bytes|
  {
    if bytes == [] then (d, [])
    else
      var (e, out) := Feed(d, bytes[..|bytes| - 1]);
      var (f, more) := Take(e, bytes[|bytes| - 1]);
      (f, out + more)
  }

  lemma FeedOne(d: Decoder, s: seq<Byte>, c: Byte)
    ensures
      var (e, out) := Feed(d, s);
      Feed(d, s + [c]) == (Take(e, c).0, out + Take(e, c).1)
  {
    assert (s + [c])[..|s + [c]| - 1] == s;
  }

  /** Decoding in two parts is decoding at once, wherever the parts meet. */
  lemma {:induction false} FeedThen(d: Decoder, a: seq<Byte>, b: seq<Byte>)
    ensures
      var (e, out) := Feed(d, a);
      Feed(d, a + b) == (Feed(e, b).0, out + Feed(e, b).1)
    decreases |b|
  {
    if b == [] {
      assert a + b == a && Feed(d, a).1 + [] == Feed(d, a).1;
    } else {
      var last := |b| - 1;
      assert (a + b)[..|a + b| - 1] == a + b[..last];
      FeedThen(d, a, b[..last]);
      var (e, out) := Feed(d, a);
      var (f, more) := Take(Feed(e, b[..last]).0, b[last]);
      assert out + Feed(e, b[..last]).1 + more == out + (Feed(e, b[..last]).1 + more);
    }
  }

  // ----- room in the output -----

  /** The output has filled up to its limit and one code point more. */
  predicate Overruns(d: Decoder, bytes: seq<Byte>, limit: nat) {
    && bytes != []
    && var (e, out) := Feed(d, bytes[..|bytes| - 1]);
       |out| == limit - 1 && e.remaining != 0 && bytes[|bytes| - 1] < 0x80
  }

  /** The last byte for which there is room gives one code point too many exactly when there is room for only one
      and it is an ASCII character that cuts a sequence short. */
  lemma OverrunsExactlyWhen(d: Decoder, bytes: seq<Byte>, limit: nat)
    requires bytes != [] && |Feed(d, bytes[..|bytes| - 1]).1| < limit
    ensures |Feed(d, bytes).1| > limit <==> Overruns(d, bytes, limit)
    ensures |Feed(d, bytes).1| <= limit + 1
  {
  }

  lemma FeedNone(d: Decoder)
    ensures Feed(d, []) == (d, [])
  {
  }

  lemma NotYetOver(d: Decoder, limit: nat)
    ensures !Overruns(d, [], limit)
  {
  }

  function Unfinished(d: Decoder): nat { if d.remaining != 0 then 1 else 0 }

  /** What a caller can count on: no more code points than bytes, with one more for a sequence begun before. */
  lemma {:induction false} EnoughRoom(d: Decoder, bytes: seq<Byte>)
    ensures |Feed(d, bytes).1| + Unfinished(Feed(d, bytes).0) <= |bytes| + Unfinished(d)
    decreases |bytes|
  {
    if bytes != [] { EnoughRoom(d, bytes[..|bytes| - 1]); }
  }

  /** A sequence begun and cut short, with room for one code point: two come out. */
  lemma OverrunHappens()
    ensures Overruns(IDLE, [0xc3, 0x41], 1) && Feed(IDLE, [0xc3, 0x41]).1 == [INVALID, 0x41]
  {
    var none: seq<Byte>, both: seq<Byte> := [], [0xc3, 0x41];
    FeedOne(IDLE, none, 0xc3);
    FeedOne(IDLE, none + [0xc3], 0x41);
    assert none + [0xc3] + [0x41] == both && both[..1] == none + [0xc3];
  }

  /** The decoder as it runs over the bytes of a text event. */
  class Utf8Decoder {
    var bytesRemaining: nat
    var bytesTotal: nat
    var thisCp: nat

    function State(): Decoder
      reads this
    {
      Decoder(bytesRemaining, bytesTotal, thisCp)
    }

    constructor ()
      ensures State() == IDLE
    {
      bytesRemaining, bytesTotal, thisCp := 0, 0, 0;
    }

    method Start(total: nat, bits: nat, cps: seq<nat>) returns (cps': seq<nat>)
      requires total > 0
      modifies this
      ensures State() == Begin(old(State()), total, bits).0 && cps' == cps + Begin(old(State()), total, bits).1
    {
      cps' := cps;
      if bytesRemaining != 0 {
        cps' := cps' + [INVALID];
      }
      thisCp, bytesTotal, bytesRemaining := bits, total, total - 1;
    }

    method Continue(c: Byte, cps: seq<nat>) returns (cps': seq<nat>)
      requires 0x80 <= c < 0xc0
      modifies this
      ensures State() == Take(old(State()), c).0 && cps' == cps + Take(old(State()), c).1
    {
      cps' := cps;
      if bytesRemaining == 0 {
        return cps' + [INVALID];
      }
      thisCp := thisCp * 64 + c % 64;
      bytesRemaining := bytesRemaining - 1;
      if bytesRemaining == 0 {
        match bytesTotal {
          case 2 => if thisCp < 0x80 { thisCp := INVALID; }
          case 3 => if thisCp < 0x800 { thisCp := INVALID; }
          case 4 => if thisCp < 0x10000 { thisCp := INVALID; }
          case 5 => if thisCp < 0x200000 { thisCp := INVALID; }
          case 6 => if thisCp < 0x4000000 { thisCp := INVALID; }
          case _ =>
        }
        if 0xd800 <= thisCp <= 0xdfff || thisCp == 0xfffe || thisCp == 0xffff {
          thisCp := INVALID;
        }
        cps' := cps' + [thisCp];
      }
    }

    /** One byte of text. */
    method TakeByte(c: Byte, cps: seq<nat>) returns (cps': seq<nat>)
      modifies this
      ensures State() == Take(old(State()), c).0 && cps' == cps + Take(old(State()), c).1
    {
      cps' := cps;
      if c < 0x80 {
        if bytesRemaining != 0 {
          cps' := cps' + [INVALID];
        }
        cps' := cps' + [c];
        bytesRemaining := 0;
      } else if c < 0xc0 {
        cps' := Continue(c, cps');
      } else if c < 0xe0 {
        cps' := Start(2, c % 32, cps');
      } else if c < 0xf0 {
        cps' := Start(3, c % 16, cps');
      } else if c < 0xf8 {
        cps' := Start(4, c % 8, cps');
      } else if c < 0xfc {
        cps' := Start(5, c % 4, cps');
      } else if c < 0xfe {
        cps' := Start(6, c % 2, cps');
      } else {
        cps' := cps' + [INVALID];
      }
    }

    /** Decodes from `start` until the end, a control, or `limit` code points; the last byte taken may add
        one more. */
    method Decode(bytes: seq<Byte>, start: nat, limit: nat) returns (cps: seq<nat>, pos: nat)
      requires start <= |bytes|
      modifies this
      ensures start <= pos <= |bytes| && (pos < |bytes| ==> IsStop(bytes[pos]) || |cps| >= limit)
      ensures forall i :: start <= i < pos ==> !IsStop(bytes[i])
      ensures (State(), cps) == Feed(old(State()), bytes[start..pos]) && |cps| <= limit + 1
      ensures |cps| > limit <==> Overruns(old(State()), bytes[start..pos], limit)
      ensures |bytes| - start + Unfinished(old(State())) <= limit ==> |cps| <= limit
    {
      hide Feed, Overruns;
      cps, pos := [], start;
      FeedNone(State());
      NotYetOver(State(), limit);
      forall i | start <= i <= |bytes| { EnoughRoom(State(), bytes[start..i]); }
      while pos < |bytes| && |cps| < limit
        invariant start <= pos <= |bytes| && |cps| <= limit + 1
        invariant forall i :: start <= i < pos ==> !IsStop(bytes[i])
        invariant (State(), cps) == Feed(old(State()), bytes[start..pos])
        invariant |cps| > limit <==> Overruns(old(State()), bytes[start..pos], limit)
      {
        var c := bytes[pos];
        assert bytes[start..pos + 1][..pos - start] == bytes[start..pos];
        if c < 0x20 || c == 0x7f {
          return;
        }
        FeedOne(old(State()), bytes[start..pos], c);
        assert bytes[start..pos] + [c] == bytes[start..pos + 1];
        cps := TakeByte(c, cps);
        pos := pos + 1;
        OverrunsExactlyWhen(old(State()), bytes[start..pos], limit);
      }
    }
  }

  // ----- the decoder inverts the encoders -----

  /** Code points that come back unchanged: no control or DEL, no surrogate, no non-character. */
  predicate Plain(cp: nat) {
    0x20 <= cp < 0x80000000 && cp != 0x7f && !(0xd800 <= cp <= 0xdfff) && cp != 0xfffe && cp != 0xffff
  }

  /** The bits collected after j continuation bytes of x. */
  function Collected(acc: nat, x: nat, j: nat): nat { if j == 0 then acc
      else Collected(acc, x / 64, j - 1) * 64 + x % 64 }

  lemma {:induction false} CollectedAll(x: nat, j: nat)
    ensures Collected(High(x, j), x, j) == x
  {
    if j > 0 { CollectedAll(x / 64, j - 1); }
  }

  lemma LowBits(x: nat)
    ensures (0x80 + x % 64) % 64 == x % 64
  {
  }

  lemma {:induction false} FeedTail(d: Decoder, x: nat, j: nat)
    requires j < d.remaining
    ensures Feed(d, Tail(x, j)) == (d.(remaining := d.remaining - j, cp := Collected(d.cp, x, j)), [])
  {
    if j == 0 {
    } else {
      hide Feed, Take;
      var before := Tail(x / 64, j - 1);
      FeedTail(d, x / 64, j - 1);
      FeedOne(d, before, 0x80 + x % 64);
      TakeTail(Feed(d, before).0, x % 64);
      var none: seq<nat> := [];
      assert none + none == none;
    }
  }

  lemma TakeTail(d: Decoder, bits: nat)
    requires d.remaining > 1 && bits < 64
    ensures Take(d, 0x80 + bits) == (d.(remaining := d.remaining - 1, cp := d.cp * 64 + bits), [])
  {
    LowBits(bits);
  }

  lemma {:induction false} LeadFits(cp: nat, n: nat)
    requires 2 <= n <= 6 && cp < Limit(n)
    ensures High(cp, n - 1) < LeadRoom(n) && LeadMark(n) + High(cp, n - 1) < 0xfe
  {
    HighStep(cp, 0);
    if n >= 3 { HighStep(cp, 1); }
    if n >= 4 { HighStep(cp, 2); }
    if n >= 5 { HighStep(cp, 3); }
    if n >= 6 { HighStep(cp, 4); }
  }

  /** Decoding what was encoded gives the code point back, after the replacement for anything left
      unfinished before it. */
  lemma DecodeFill(d: Decoder, cp: nat)
    requires Plain(cp)
    ensures
      var (e, out) := Feed(d, Fill(cp));
      e.remaining == 0 && out == (if d.remaining != 0 then [INVALID] else []) + [cp]
  {
    var n := SeqLen(cp);
    var bytes := Fill(cp);
    if n == 1 {
      assert bytes[..0] == [];
    } else {
      DecodeLong(d, cp, n);
    }
  }

  lemma TakeLead(d: Decoder, n: nat, bits: nat)
    requires 2 <= n <= 6 && bits < LeadRoom(n)
    ensures Take(d, LeadMark(n) + bits) == Begin(d, n, bits)
  {
    match n {
      case 2 => assert (0xc0 + bits) % 32 == bits;
      case 3 => assert (0xe0 + bits) % 16 == bits;
      case 4 => assert (0xf0 + bits) % 8 == bits;
      case 5 => assert (0xf8 + bits) % 4 == bits;
      case 6 => assert (0xfc + bits) % 2 == bits;
    }
  }

  lemma DecodeLead(d: Decoder, n: nat, bits: nat)
    requires 2 <= n <= 6 && bits < LeadRoom(n)
    ensures Feed(d, [LeadMark(n) + bits]) == Begin(d, n, bits)
  {
    hide Take, Begin;
    var lead: seq<Byte> := [];
    TakeLead(d, n, bits);
    FeedOne(d, lead, LeadMark(n) + bits);
    assert lead + [LeadMark(n) + bits] == [LeadMark(n) + bits];
    assert [] + Begin(d, n, bits).1 == Begin(d, n, bits).1;
  }

  lemma DecodeLong(d: Decoder, cp: nat, n: nat)
    requires Plain(cp) && n == SeqLen(cp) >= 2
    ensures
      var (e, out) := Feed(d, Fill(cp));
      e.remaining == 0 && out == (if d.remaining != 0 then [INVALID] else []) + [cp]
  {
    hide Fill, Take, Feed, Tail, High;
    LeadFits(cp, n);
    var lead: seq<Byte>, tail := [LeadMark(n) + High(cp, n - 1)], Tail(cp / 64, n - 2);
    FillParts(cp, n);
    DecodeLead(d, n, High(cp, n - 1));
    var b := Decoder(n - 1, n, High(cp, n - 1));
    var lost := if d.remaining != 0 then [INVALID] else [];
    assert Feed(d, lead) == (b, lost);
    FeedTail(b, cp / 64, n - 2);
    FeedThen(d, lead, tail);
    var c := Decoder(1, n, Collected(b.cp, cp / 64, n - 2));
    assert Feed(d, lead + tail) == (c, lost) by { assert lost + [] == lost; }
    CollectedAll(cp, n - 1);
    FinishCp(c, cp);
    FeedOne(d, lead + tail, 0x80 + cp % 64);
  }

  lemma FillParts(cp: nat, n: nat)
    requires n == SeqLen(cp) >= 2 && High(cp, n - 1) < LeadRoom(n)
    ensures Fill(cp) == [LeadMark(n) + High(cp, n - 1)] + Tail(cp / 64, n - 2) + [0x80 + cp % 64]
  {
  }

  lemma FinishCp(c: Decoder, cp: nat)
    requires Plain(cp) && c.remaining == 1 && c.total == SeqLen(cp) >= 2 && c.cp * 64 + cp % 64 == cp
    ensures Take(c, 0x80 + cp % 64) == (c.(remaining := 0, cp := cp), [cp])
  {
    LowBits(cp);
  }

  function FillAll(cps: seq<nat>): seq<Byte> {
    if cps == [] then [] else FillAll(cps[..|cps| - 1]) + Fill(cps[|cps| - 1])
  }

  lemma FillAllLast(cps: seq<nat>)
    requires cps != []
    ensures FillAll(cps) == FillAll(cps[..|cps| - 1]) + Fill(cps[|cps| - 1])
  {
  }

  lemma DecodeNext(d: Decoder, a: seq<Byte>, cp: nat)
    requires Plain(cp) && Feed(d, a).0.remaining == 0
    ensures Feed(d, a + Fill(cp)).0.remaining == 0 && Feed(d, a + Fill(cp)).1 == Feed(d, a).1 + [cp]
  {
    hide Feed, Fill, Plain;
    FeedThen(d, a, Fill(cp));
    DecodeFill(Feed(d, a).0, cp);
    var none: seq<nat> := [];
    assert none + [cp] == [cp];
  }

  /** A whole text comes back. */
  lemma {:induction false} DecodeFillAll(cps: seq<nat>, d: Decoder)
    requires d.remaining == 0 && forall i :: 0 <= i < |cps| ==> Plain(cps[i])
    ensures Feed(d, FillAll(cps)).0.remaining == 0 && Feed(d, FillAll(cps)).1 == cps
  {
    if cps == [] {
    } else {
      hide Feed, Fill, Plain;
      var last := |cps| - 1;
      var init := cps[..last];
      assert forall i :: 0 <= i < |init| ==> init[i] == cps[i];
      DecodeFillAll(init, d);
      hide FillAll;
      FillAllLast(cps);
      DecodeNext(d, FillAll(init), cps[last]);
      assert cps == init + [cps[last]];
    }
  }

  /** The Go encoder agrees with the C one exactly below 0x200000, so on all of Unicode. */
  lemma RuneIsFill(r: nat)
    ensures RuneToUtf8(r) == Fill(r) <==> r < 0x200000
  {
    if r < 0x200000 {
      LeadBytes(r);
    } else {
      assert |RuneToUtf8(r)| == 4 && SeqLen(r) > 4;
    }
  }

  lemma LeadBytes(r: nat)
    requires r < 0x200000
    ensures RuneToUtf8(r) == Fill(r)
  {
    var n := SeqLen(r);
    HighStep(r, 0);
    if n == 2 {
      TailSplit(r, 1);
    } else if n == 3 {
      LeadBytes3(r);
    } else if n == 4 {
      LeadBytes4(r);
    }
  }

  lemma Sixths(r: nat)
    ensures r / 64 / 64 == r / 4096 && r / 4096 / 64 == r / 262144
  {
  }

  lemma HighBits(r: nat)
    ensures High(r, 0) == r && High(r, 1) == r / 64 && High(r, 2) == r / 4096 && High(r, 3) == r / 262144
  {
    HighStep(r, 0);
    HighStep(r, 1);
    HighStep(r, 2);
    hide High;
    Sixths(r);
  }

  lemma LeadBytes3(r: nat)
    requires 0x800 <= r < 0x10000
    ensures RuneToUtf8(r) == Fill(r)
  {
    HighBits(r);
    TailSplit(r, 2);
    TailSplit(r, 1);
    TailNone(r);
    hide High, Tail;
  }

  lemma ThreeTails(r: nat)
    ensures Tail(r, 3) == [0x80 + r / 4096 % 64, 0x80 + r / 64 % 64, 0x80 + r % 64] && High(r, 3) == r / 262144
  {
    HighBits(r);
    TailSplit(r, 3);
    TailSplit(r, 2);
    TailSplit(r, 1);
    TailNone(r);
    hide High, Tail;
  }

  lemma LeadBytes4(r: nat)
    requires 0x10000 <= r < 0x200000
    ensures RuneToUtf8(r) == Fill(r)
  {
    ThreeTails(r);
    hide High, Tail;
    var q := r / 262144;
    assert q < 8 && q % 16 == q && q % 8 == q;
  }

  lemma TailNone(r: nat)
    ensures Tail(r, 0) == [] && High(r, 0) == r
  {
  }

  // ----- nothing malformed comes out -----

  /** The bits collected so far fit what the sequence has room for. */
  predicate Sound(d: Decoder) {
    d.remaining == 0 || (2 <= d.total <= 6 && d.remaining < d.total && d.cp < Room(d.total, d.total - 1 - d.remaining))
  }

  function Room(total: nat, taken: nat): nat { if taken == 0 then LeadRoom(total) else 64 * Room(total, taken - 1) }

  lemma RoomAll(total: nat)
    requires 2 <= total <= 6
    ensures Room(total, total - 1) == Limit(total)
  {
    if total >= 5 { assert Room(total, 3) == 64 * 64 * 64 * LeadRoom(total); }
    if total == 6 { assert Room(total, 4) == 64 * Room(total, 3); }
  }

  /** Every code point that comes out is the replacement, an ASCII character, or a whole sequence in its
      shortest form that is no surrogate and no non-character. */
  lemma TakeSound(d: Decoder, c: Byte)
    requires Sound(d)
    ensures
      var (e, out) := Take(d, c);
      && Sound(e)
      && forall i :: 0 <= i < |out| ==>
           || out[i] == INVALID
           || (out[i] == c < 0x80)
           || (d.remaining == 1 && out[i] == d.cp * 64 + c % 64 && SeqLen(out[i]) == d.total
               && !(0xd800 <= out[i] <= 0xdfff) && out[i] != 0xfffe && out[i] != 0xffff)
  {
    if 0x80 <= c < 0xc0 && d.remaining >= 1 {
      assert d.cp * 64 + c % 64 < 64 * Room(d.total, d.total - 1 - d.remaining);
      if d.remaining == 1 { RoomAll(d.total); }
    }
  }

  predicate WellFormed(cp: nat) { !(0xd800 <= cp <= 0xdfff) && cp != 0xfffe && cp != 0xffff && cp < 0x80000000 }

  lemma {:induction false} FeedSound(d: Decoder, bytes: seq<Byte>)
    requires Sound(d)
    ensures Sound(Feed(d, bytes).0) && forall i :: 0 <= i < |Feed(d, bytes).1| ==> WellFormed(Feed(d, bytes).1[i])
    decreases |bytes|
  {
    if bytes != [] {
      FeedSound(d, bytes[..|bytes| - 1]);
      TakeSound(Feed(d, bytes[..|bytes| - 1]).0, bytes[|bytes| - 1]);
    }
  }
}
