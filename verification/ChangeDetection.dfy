/**
  Change detection in the C client: a view that the server delivers again is
  rendered only if its FNV-1a hash differs from that of the last one. What this
  misses follows from the arithmetic of one hash step, which is a bijection of
  the 32-bit state for every byte.
*/
module ChangeDetection {
  import opened Wrappers
  import opened Bytes

  const TWO_32: nat := 0x1_0000_0000
  const OFFSET_BASIS: nat := 2166136261
  const PRIME: nat := 16777619
  const PRIME_INVERSE: nat := 0x359C449B
  const WORD_BITS: nat := 32

  type Word = h: int | 0 <= h < TWO_32
  type Blob = seq<Byte>

  // ---------------------------------------------------------------------------
  // 32-bit arithmetic
  // ---------------------------------------------------------------------------

  /** Exclusive or of the low `n` bits. */
  function Xor(a: nat, b: nat, n: nat): nat {
    if n == 0 then 0 else (a + b) % 2 + 2 * Xor(a / 2, b / 2, n - 1)
  }

  lemma {:induction false} XorFits(a: nat, b: nat, n: nat)
    ensures Xor(a, b, n) < Pow2(n)
  {
    if n > 0 {
      XorFits(a / 2, b / 2, n - 1);
    }
  }

  lemma Halves(p: nat, x: nat)
    requires p < 2
    ensures (p + 2 * x) / 2 == x && (p + 2 * x) % 2 == p
  {
  }

  lemma BitTwice(a: nat, b: nat, x: nat)
    ensures ((a + b) % 2 + 2 * x + b) % 2 == a % 2
  {
    var i, j, k := a / 2, b / 2, (a + b) / 2;
    assert (a + b) % 2 + 2 * x + b == a % 2 + 2 * (i - k + x + b);
  }

  /** Exclusive or with the same operand twice is the identity. */
  lemma {:induction false} XorTwice(a: nat, b: nat, n: nat)
    requires a < Pow2(n)
    ensures Xor(Xor(a, b, n), b, n) == a
  {
    if n > 0 {
      var x := Xor(a / 2, b / 2, n - 1);
      var p := (a + b) % 2;
      Halves(p, x);
      BitTwice(a, b, x);
      XorTwice(a / 2, b / 2, n - 1);
      assert Xor(a, b, n) == p + 2 * x;
      assert a == a % 2 + 2 * (a / 2);
    }
  }

  lemma XorCommutes(a: nat, b: nat, n: nat)
    ensures Xor(a, b, n) == Xor(b, a, n)
  {
  }

  /** It tells operands apart. */
  lemma XorSeparates(a: nat, b: nat, c: nat, n: nat)
    requires b < Pow2(n) && c < Pow2(n) && Xor(a, b, n) == Xor(a, c, n)
    ensures b == c
  {
    XorCommutes(a, b, n);
    XorCommutes(a, c, n);
    XorTwice(b, a, n);
    XorTwice(c, a, n);
  }

  lemma WordIs32Bits()
    ensures Pow2(WORD_BITS) == TWO_32
  {
    assert Pow2(8) == 2 * Pow2(7) == 4 * Pow2(6) == 8 * Pow2(5) == 16 * Pow2(4) == 32 * Pow2(3) == 256;
    assert Pow2(16) == 2 * Pow2(15) == 4 * Pow2(14) == 8 * Pow2(13) == 16 * Pow2(12) == 0x1_0000 by {
      assert Pow2(12) == 2 * Pow2(11) == 4 * Pow2(10) == 8 * Pow2(9) == 16 * Pow2(8);
    }
    assert Pow2(24) == 0x100_0000 by {
      assert Pow2(20) == 2 * Pow2(19) == 4 * Pow2(18) == 8 * Pow2(17) == 16 * Pow2(16);
      assert Pow2(24) == 2 * Pow2(23) == 4 * Pow2(22) == 8 * Pow2(21) == 16 * Pow2(20);
    }
    assert Pow2(28) == 2 * Pow2(27) == 4 * Pow2(26) == 8 * Pow2(25) == 16 * Pow2(24);
    assert Pow2(32) == 2 * Pow2(31) == 4 * Pow2(30) == 8 * Pow2(29) == 16 * Pow2(28);
  }

  // ---------------------------------------------------------------------------
  // The hash
  // ---------------------------------------------------------------------------

  function HashStep(h: Word, b: Byte): Word {
    Xor(h, b, WORD_BITS) * PRIME % TWO_32
  }

  function HashFrom(h: Word, s: Blob): Word
    decreases |s|
  {
    if s == [] then h else HashFrom(HashStep(h, s[0]), s[1..])
  }

  function Hash(s: Blob): Word {
    HashFrom(OFFSET_BASIS, s)
  }

  method BlobHash(b: Blob) returns (h: Word)
    ensures h == Hash(b)
  {
    hide HashStep;
    h := OFFSET_BASIS;
    for i := 0 to |b|
      invariant HashFrom(h, b[i..]) == Hash(b)
    {
      assert b[i..][0] == b[i] && b[i..][1..] == b[i + 1..];
      h := HashStep(h, b[i]);
    }
  }

  // ---------------------------------------------------------------------------
  // The hash can be run backwards
  // ---------------------------------------------------------------------------

  lemma RemainderIs(a: int, x: Word, t: int)
    requires a == x + TWO_32 * t
    ensures a % TWO_32 == x
  {
  }

  /** Multiplication by the prime is invertible modulo 2^32. */
  lemma PrimeIsInvertible(x: Word)
    ensures x * PRIME % TWO_32 * PRIME_INVERSE % TWO_32 == x
  {
    var q := x * PRIME / TWO_32;
    var y := x * PRIME % TWO_32;
    assert PRIME * PRIME_INVERSE == 3513497 * TWO_32 + 1;
    assert y * PRIME_INVERSE == x + TWO_32 * (x * 3513497 - q * PRIME_INVERSE);
    RemainderIs(y * PRIME_INVERSE, x, x * 3513497 - q * PRIME_INVERSE);
  }

  function UnhashStep(h: Word, b: Byte): (r: Word)
  {
    XorFits(h * PRIME_INVERSE % TWO_32, b, WORD_BITS);
    WordIs32Bits();
    Xor(h * PRIME_INVERSE % TWO_32, b, WORD_BITS)
  }

  function UnhashFrom(h: Word, s: Blob): Word
    decreases |s|
  {
    if s == [] then h else UnhashStep(UnhashFrom(h, s[1..]), s[0])
  }

  lemma StepInverts(h: Word, b: Byte)
    ensures UnhashStep(HashStep(h, b), b) == h
  {
    hide Xor;
    WordIs32Bits();
    XorFits(h, b, WORD_BITS);
    PrimeIsInvertible(Xor(h, b, WORD_BITS));
    XorTwice(h, b, WORD_BITS);
  }

  /** From the hash and the bytes the initial state can be recovered. */
  lemma {:induction false} HashInverts(h: Word, s: Blob)
    ensures UnhashFrom(HashFrom(h, s), s) == h
    decreases |s|
  {
    hide HashStep, UnhashStep;
    if s != [] {
      HashInverts(HashStep(h, s[0]), s[1..]);
      StepInverts(h, s[0]);
    }
  }

  lemma StepSeparates(h: Word, a: Byte, b: Byte)
    ensures HashStep(h, a) == HashStep(h, b) <==> a == b
  {
    hide Xor, Pow2;
    if HashStep(h, a) == HashStep(h, b) {
      WordIs32Bits();
      XorFits(h, a, WORD_BITS);
      XorFits(h, b, WORD_BITS);
      PrimeIsInvertible(Xor(h, a, WORD_BITS));
      PrimeIsInvertible(Xor(h, b, WORD_BITS));
      XorSeparates(h, a, b, WORD_BITS);
    }
  }

  lemma {:induction false} HashOfConcat(h: Word, s: Blob, t: Blob)
    ensures HashFrom(h, s + t) == HashFrom(HashFrom(h, s), t)
    decreases |s|
  {
    hide HashStep;
    if s == [] {
      assert s + t == t;
    } else {
      assert (s + t)[1..] == s[1..] + t;
      HashOfConcat(HashStep(h, s[0]), s[1..], t);
    }
  }

  /** A common suffix cancels: two blobs collide exactly if what precedes it does. */
  lemma SuffixCancels(s: Blob, s': Blob, t: Blob)
    ensures Hash(s + t) == Hash(s' + t) <==> Hash(s) == Hash(s')
  {
    hide HashFrom, UnhashFrom;
    HashOfConcat(OFFSET_BASIS, s, t);
    HashOfConcat(OFFSET_BASIS, s', t);
    HashInverts(Hash(s), t);
    HashInverts(Hash(s'), t);
  }

  ghost predicate DifferInOneByte(s: Blob, s': Blob) {
    |s| == |s'| && exists k :: 0 <= k < |s| && s[k] != s'[k] && s[..k] == s'[..k] && s[k + 1..] == s'[k + 1..]
  }

  lemma LastByteSeparates(p: Blob, a: Byte, b: Byte)
    requires a != b
    ensures Hash(p + [a]) != Hash(p + [b])
  {
    hide HashStep;
    HashOfConcat(OFFSET_BASIS, p, [a]);
    HashOfConcat(OFFSET_BASIS, p, [b]);
    StepSeparates(Hash(p), a, b);
  }

  /** Blobs that differ in exactly one byte never collide. */
  lemma OneByteSeparates(s: Blob, s': Blob)
    requires DifferInOneByte(s, s')
    ensures Hash(s) != Hash(s')
  {
    hide Hash;
    var k :| 0 <= k < |s| && s[k] != s'[k] && s[..k] == s'[..k] && s[k + 1..] == s'[k + 1..];
    var p, t := s[..k], s[k + 1..];
    assert s == (p + [s[k]]) + t && s' == (p + [s'[k]]) + t;
    SuffixCancels(p + [s[k]], p + [s'[k]], t);
    LastByteSeparates(p, s[k], s'[k]);
  }

  // ---------------------------------------------------------------------------
  // What a client shows
  // ---------------------------------------------------------------------------

  /** One result of a store update: its type and, unless it is empty, its content. */
  datatype Any = Any(typeUrl: Option<string>, content: Option<Blob>)

  predicate Contains(s: string, part: string) {
    exists i :: 0 <= i <= |s| && part <= s[i..]
  }

  predicate TypeIs(a: Any, name: string) {
    a.typeUrl.Some? && Contains(a.typeUrl.value, name)
  }

  /** A type is recognised by its name anywhere in its URL, and only so. */
  lemma TypeIsNamed(url: string, name: string, content: Option<Blob>)
    ensures !TypeIs(Any(None, content), name)
    ensures TypeIs(Any(Some(url), content), name) <==> exists prefix, suffix :: url == prefix + name + suffix
  {
    if i: int :| 0 <= i <= |url| && name <= url[i..] {
      assert url == url[..i] + name + url[i + |name|..];
    }
    if prefix, suffix :| url == prefix + name + suffix {
      assert url[|prefix|..] == name + suffix;
    }
  }

  /** The blobs of `offered` that are rendered when the last hash is `last`, in order. */
  function Rendered(last: Word, offered: seq<Blob>): seq<Blob> {
    if offered == [] then []
    else
      var before := Rendered(last, offered[..|offered| - 1]);
      var blob := offered[|offered| - 1];
      if Hash(blob) != LastHash(last, offered[..|offered| - 1]) then before + [blob] else before
  }

  function LastHash(last: Word, offered: seq<Blob>): Word {
    if offered == [] then last else Hash(offered[|offered| - 1])
  }

  class Client {
    var connected: bool
    var lastView: Word
    var lastStatusBar: Word
    // everything offered and rendered so far, and whether the display is blanked
    ghost var views: seq<Blob>
    ghost var statusBars: seq<Blob>
    ghost var shownViews: seq<Blob>
    ghost var shownStatusBars: seq<Blob>
    var blanked: bool

    ghost predicate Valid()
      reads this
    {
      && lastView == LastHash(0, views) && shownViews == Rendered(0, views)
      && lastStatusBar == LastHash(0, statusBars) && shownStatusBars == Rendered(0, statusBars)
    }

    constructor ()
      ensures Valid() && views == [] && statusBars == [] && !connected
    {
      connected, lastView, lastStatusBar, blanked := false, 0, 0, false;
      views, statusBars, shownViews, shownStatusBars := [], [], [], [];
    }

    method OfferView(blob: Blob)
      requires Valid()
      modifies this`lastView, this`views, this`shownViews
      ensures Valid() && views == old(views) + [blob]
    {
      hide Hash, Rendered, LastHash;
      OneMoreOffer(0, views, blob);
      var h := BlobHash(blob);
      views := views + [blob];
      if h != lastView {
        lastView := h;
        shownViews := shownViews + [blob];
      }
    }

    method OfferStatusBar(blob: Blob)
      requires Valid()
      modifies this`lastStatusBar, this`statusBars, this`shownStatusBars
      ensures Valid() && statusBars == old(statusBars) + [blob]
    {
      hide Hash, Rendered, LastHash;
      OneMoreOffer(0, statusBars, blob);
      var h := BlobHash(blob);
      statusBars := statusBars + [blob];
      if h != lastStatusBar {
        lastStatusBar := h;
        shownStatusBars := shownStatusBars + [blob];
      }
    }

    /** `results` are the current view, the status bar and whether the display is blanked;
        `isTrue` decodes a boolean message. */
    method HandleStore(results: seq<Any>, isTrue: Blob -> bool)
      requires Valid()
      modifies this
      ensures Valid() && connected
      ensures views == old(views) +
                       (if |results| > 0 && results[0].content.Some? then [results[0].content.value] else [])
      ensures statusBars == old(statusBars)
                            + (if |results| > 1 && results[1].content.Some? && TypeIs(results[1], "StatusBarData")
                               then [results[1].content.value] else [])
      ensures blanked == if |results| > 2 && TypeIs(results[2], "BoolValue")
                         then results[2].content.Some? && isTrue(results[2].content.value) else old(blanked)
    {
      hide Hash, Rendered, LastHash, Contains;
      connected := true;
      if |results| > 1 && results[1].content.Some? && TypeIs(results[1], "StatusBarData") {
        OfferStatusBar(results[1].content.value);
      }
      if |results| > 0 && results[0].content.Some? {
        OfferView(results[0].content.value);
      }
      if |results| > 2 && TypeIs(results[2], "BoolValue") {
        blanked := results[2].content.Some? && isTrue(results[2].content.value);
      }
    }
  }

  lemma OneMoreOffer(last: Word, offered: seq<Blob>, blob: Blob)
    ensures LastHash(last, offered + [blob]) == Hash(blob)
    ensures Rendered(last, offered + [blob])
         == Rendered(last, offered) + (if Hash(blob) != LastHash(last, offered) then [blob] else [])
  {
    hide Hash;
    assert (offered + [blob])[..|offered|] == offered;
  }

  /** What is on screen always has the hash of what was offered last; only if nothing has
      been rendered at all does every offer so far have the initial hash. */
  lemma {:induction false} ScreenHasTheLastHash(last: Word, offered: seq<Blob>)
    ensures var shown := Rendered(last, offered);
            if shown == [] then LastHash(last, offered) == last && forall b :: b in offered ==> Hash(b) == last
            else Hash(shown[|shown| - 1]) == LastHash(last, offered)
  {
    hide Hash;
    if offered != [] {
      ScreenHasTheLastHash(last, offered[..|offered| - 1]);
      assert offered == offered[..|offered| - 1] + [offered[|offered| - 1]];
    }
  }

  /** A blob that differs from the one on screen in a single byte is always rendered. */
  lemma SingleByteChangeIsRendered(last: Word, offered: seq<Blob>, blob: Blob)
    requires Rendered(last, offered) != []
    requires DifferInOneByte(Rendered(last, offered)[|Rendered(last, offered)| - 1], blob)
    ensures Rendered(last, offered + [blob]) == Rendered(last, offered) + [blob]
  {
    hide Hash;
    ScreenHasTheLastHash(last, offered);
    OneByteSeparates(Rendered(last, offered)[|Rendered(last, offered)| - 1], blob);
    assert (offered + [blob])[..|offered|] == offered;
  }

  /** An offer is missed exactly if it has the hash of what is on screen, or, at the
      start, the hash the client starts from. */
  lemma MissedExactlyOnCollision(last: Word, offered: seq<Blob>, blob: Blob)
    ensures var shown := Rendered(last, offered);
            Rendered(last, offered + [blob]) == shown
            <==> Hash(blob) == if shown == [] then last else Hash(shown[|shown| - 1])
  {
    hide Hash;
    ScreenHasTheLastHash(last, offered);
    assert (offered + [blob])[..|offered|] == offered;
  }

  // ---------------------------------------------------------------------------
  // Views that are missed
  // ---------------------------------------------------------------------------

  lemma HashOfFour(a: Byte, b: Byte, c: Byte, d: Byte)
    ensures Hash([a, b, c, d]) == HashStep(HashStep(HashStep(HashStep(OFFSET_BASIS, a), b), c), d)
  {
    hide HashStep;
    var h := HashStep(OFFSET_BASIS, a);
    assert [a, b, c, d][1..] == [b, c, d] && [b, c, d][1..] == [c, d] && [c, d][1..] == [d];
    assert HashFrom(HashStep(HashStep(h, b), c), [d]) == HashStep(HashStep(HashStep(h, b), c), d);
    assert HashFrom(HashStep(h, b), [c, d]) == HashFrom(HashStep(HashStep(h, b), c), [d]);
    assert HashFrom(h, [b, c, d]) == HashFrom(HashStep(h, b), [c, d]);
  }

  lemma {:induction false} XorZero(a: nat, n: nat)
    requires a < Pow2(n)
    ensures Xor(a, 0, n) == a
  {
    if n > 0 {
      XorZero(a / 2, n - 1);
    }
  }

  lemma {:induction false} XorSelf(a: nat, n: nat)
    ensures Xor(a, a, n) == 0
  {
    if n > 0 {
      XorSelf(a / 2, n - 1);
    }
  }

  // the exclusive or of a byte leaves the upper 24 bits and is worked out bit by bit below

  lemma FirstStep()
    ensures HashStep(2166136261, 0xCC) == 1225471275
  {
    WordIs32Bits();
    assert Pow2(24) > 8461469;
    XorZero(8461469, 24);
    assert Xor(16922939, 1, 25) == 16922938;
    assert Xor(33845879, 3, 26) == 33845876;
    assert Xor(67691758, 6, 27) == 67691752;
    assert Xor(135383516, 12, 28) == 135383504;
    assert Xor(270767032, 25, 29) == 270767009;
    assert Xor(541534065, 51, 30) == 541534018;
    assert Xor(1083068130, 102, 31) == 1083068036;
    assert Xor(2166136261, 204, 32) == 2166136073;
    hide Xor;
    assert 2166136073 * PRIME == 8461672 * TWO_32 + 1225471275;
  }

  lemma SecondStep()
    ensures HashStep(1225471275, 0x24) == 195331741
  {
    WordIs32Bits();
    assert Pow2(24) > 4786997;
    XorZero(4786997, 24);
    assert Xor(9573994, 0, 25) == 9573994;
    assert Xor(19147988, 0, 26) == 19147988;
    assert Xor(38295977, 1, 27) == 38295976;
    assert Xor(76591954, 2, 28) == 76591952;
    assert Xor(153183909, 4, 29) == 153183905;
    assert Xor(306367818, 9, 30) == 306367811;
    assert Xor(612735637, 18, 31) == 612735623;
    assert Xor(1225471275, 36, 32) == 1225471247;
    hide Xor;
    assert 1225471247 * PRIME == 4787112 * TWO_32 + 195331741;
  }

  lemma ThirdStep()
    ensures HashStep(195331741, 0x31) == 196
  {
    WordIs32Bits();
    assert Pow2(24) > 763014;
    XorZero(763014, 24);
    assert Xor(1526029, 0, 25) == 1526029;
    assert Xor(3052058, 0, 26) == 3052058;
    assert Xor(6104116, 1, 27) == 6104117;
    assert Xor(12208233, 3, 28) == 12208234;
    assert Xor(24416467, 6, 29) == 24416469;
    assert Xor(48832935, 12, 30) == 48832939;
    assert Xor(97665870, 24, 31) == 97665878;
    assert Xor(195331741, 49, 32) == 195331756;
    hide Xor;
    assert 195331756 * PRIME == 763033 * TWO_32 + 196;
  }

  lemma SameByteGivesZero(b: Byte)
    ensures HashStep(b, b) == 0
  {
    XorSelf(b, WORD_BITS);
    hide Xor;
  }

  const HashesToZero: Blob := [0xCC, 0x24, 0x31, 0xC4]

  /** A view that is never drawn on a client that has just started. */
  lemma FirstViewIsMissed()
    ensures Hash(HashesToZero) == 0
    ensures Rendered(0, [HashesToZero]) == []
  {
    hide Hash, HashStep;
    HashOfFour(0xCC, 0x24, 0x31, 0xC4);
    FirstStep();
    SecondStep();
    ThirdStep();
    SameByteGivesZero(196);
    OneMoreOffer(0, [], HashesToZero);
    assert [] + [HashesToZero] == [HashesToZero];
  }

  lemma HashOfOneMore(s: Blob, b: Byte)
    ensures Hash(s + [b]) == HashStep(Hash(s), b)
  {
    hide HashStep;
    HashOfConcat(OFFSET_BASIS, s, [b]);
    assert [b][1..] == [];
  }

  /** A view that is never drawn after one that was: the two collide. */
  lemma LaterViewIsMissed()
    ensures var shown, missed := HashesToZero + [1], HashesToZero + [0] + [1];
            shown != missed && Hash(shown) == Hash(missed) && Rendered(0, [shown, missed]) == [shown]
  {
    hide Hash, HashStep, Rendered, LastHash;
    var shown, missed := HashesToZero + [1], HashesToZero + [0] + [1];
    FirstViewIsMissed();
    HashOfOneMore(HashesToZero, 0);
    HashOfOneMore(HashesToZero, 1);
    SameByteGivesZero(0);
    StepSeparates(0, 0, 1);
    SuffixCancels(HashesToZero, HashesToZero + [0], [1]);
    OneMoreOffer(0, [], shown);
    OneMoreOffer(0, [shown], missed);
    NothingOffered(0, shown);
    assert [] + [shown] == [shown] && [shown] + [missed] == [shown, missed];
    assert |shown| != |missed|;
  }

  lemma NothingOffered(last: Word, shown: Blob)
    ensures Rendered(last, []) == [] && LastHash(last, []) == last
    ensures LastHash(last, [shown]) == Hash(shown)
  {
  }
}
