/**
 * The flag stringifier of the NT query test program: a 32-bit flag word is
 * rendered as the names of the descriptor-table entries it matches, in table
 * order, followed by "BIT(n)" for every bit no entry claimed, into a bounded
 * character buffer.
 *
 * The buffer is an `array<char>`; a position `pos` and the count `cb` of bytes
 * still free (the terminator included) play the roles of `pszBuf` and
 * `*pcbBuf`.  The pure `Sink` functions say what the loops compute.
 */
module NtQueryStuff {
  import Numerals
  import opened CStrings


  /** One descriptor-table entry: a mask and the name shown when it matches. */
  datatype FlagDesc = FlagDesc(f: bv32, name: string)

  /** The word with only bit `n` set, built by doubling. */
  function Bit32(n: nat): bv32
    requires n < 32
  {
    if n == 0 then 1 else Bit32(n - 1) << 1
  }

  predicate HasBit(flags: bv32, n: nat)
    requires n < 32
  {
    flags & Bit32(n) != 0
  }

  /** Whether the word shares a bit with the mask. */
  predicate Meets(flags: bv32, mask: bv32)
  {
    flags & mask != 0
  }

  /** The word with the mask's bits cleared. */
  function Clear(flags: bv32, mask: bv32): bv32
  {
    flags & !mask
  }

  /** The text shown for an unclaimed bit. */
  function BitName(n: nat): (s: string)
    ensures |s| >= 5 && s[..4] == "BIT(" && s[|s| - 1] == ')'
    ensures NUL !in s
  {
    var d := Numerals.Decimal(n);
    assert forall i :: 0 <= i < |d| ==> d[i] != NUL by {
      forall i | 0 <= i < |d| ensures d[i] != NUL {
        assert Numerals.IsDigit(d[i]);
      }
    }
    var s := "BIT(" + d + ")";
    assert forall i :: 0 <= i < |s| ==> s[i] != NUL by {
      forall i | 0 <= i < |s| ensures s[i] != NUL {
        if 4 <= i < 4 + |d| {
          assert s[i] == d[i - 4];
        }
      }
    }
    s
  }

  /** Different bits have different names. */
  lemma BitNameInjective(n: nat, m: nat)
    requires BitName(n) == BitName(m)
    ensures n == m
  {
    var a := Numerals.Decimal(n);
    var b := Numerals.Decimal(m);
    var s := BitName(n);
    assert s == "BIT(" + a + ")";
    assert s[4..|s| - 1] == a;
    assert BitName(m)[4..|s| - 1] == b;
    Numerals.ParseNatText(n, 10);
    Numerals.ParseNatText(m, 10);
  }

  // ---------------------------------------------------------------------
  // The bounded append
  // ---------------------------------------------------------------------

  /** What has been written since the buffer start, and the bytes still free. */
  datatype Sink = Sink(text: string, cb: nat)

  function SpaceLen(withSpace: bool): nat
  {
    if withSpace then 1 else 0
  }

  /** The test the append makes before writing anything. */
  predicate Fits(cb: nat, item: string, withSpace: bool)
  {
    |item| + 1 + SpaceLen(withSpace) <= cb
  }

  /**
   * One append, with the free count reduced by every character written: the
   * written text plus the free bytes stay equal to the buffer size, and after
   * a successful append the terminator still has a byte of its own.
   */
  function AppendStep(s: Sink, item: string, withSpace: bool): (r: Sink)
    ensures |r.text| + r.cb == |s.text| + s.cb
    ensures s.text <= r.text
    ensures Fits(s.cb, item, withSpace) ==> r.cb >= 1 && r.text[|s.text|..] == (if withSpace then " " else "") + item
    ensures !Fits(s.cb, item, withSpace) ==> r == s
  {
    if Fits(s.cb, item, withSpace) then
      Sink(s.text + (if withSpace then " " else "") + item, s.cb - |item| - SpaceLen(withSpace))
    else
      s
  }

  /**
   * The append as the source writes it: the space is counted by adding one to
   * the free count instead of taking one away.
   */
  function AppendStepAsWritten(s: Sink, item: string, withSpace: bool): (r: Sink)
    ensures withSpace && Fits(s.cb, item, withSpace) ==> |r.text| + r.cb == |s.text| + s.cb + 2
  {
    if Fits(s.cb, item, withSpace) then
      Sink(s.text + (if withSpace then " " else "") + item, s.cb + SpaceLen(withSpace) - |item|)
    else
      s
  }

  /**
   * With the source's bookkeeping, three one-letter appends into a 4-byte
   * buffer all pass the size test, and the third writes "C" and its
   * terminator two bytes past the end of the buffer.
   */
  lemma AppendAsWrittenOverruns()
    ensures var s1 := AppendStepAsWritten(Sink("", 4), "A", false);
            var s2 := AppendStepAsWritten(s1, "B", true);
            var s3 := AppendStepAsWritten(s2, "C", true);
            s3.text == "A B C" && |s3.text| + 1 > 4
  {
    var s1 := AppendStepAsWritten(Sink("", 4), "A", false);
    assert s1 == Sink("A", 3);
    var s2 := AppendStepAsWritten(s1, "B", true);
    assert s2 == Sink("A B", 3);
  }

  /**
   * With the corrected bookkeeping the text written so far and its
   * terminator never go past the buffer, whatever is appended.
   */
  lemma AppendStepStaysInside(s: Sink, size: nat, item: string, withSpace: bool)
    requires |s.text| + s.cb == size
    requires s.text != "" ==> s.cb >= 1
    ensures var r := AppendStep(s, item, withSpace);
            |r.text| + r.cb == size && (r.text != "" ==> |r.text| + 1 <= size)
  {
  }

  /** The copy loop of stringifyAppend: `item` written at `at`, every other byte kept. */
  method CopyInto(buf: array<char>, at: nat, item: string)
    requires at + |item| <= buf.Length
    modifies buf
    ensures buf[..at] == old(buf[..at])
    ensures buf[at..at + |item|] == item
    ensures buf[..at + |item|] == old(buf[..at]) + item
    ensures forall k :: at + |item| <= k < buf.Length ==> buf[k] == old(buf[k])
  {
    var i := 0;
    while i < |item|
      invariant 0 <= i <= |item|
      invariant buf[..at] == old(buf[..at])
      invariant buf[at..at + i] == item[..i]
      invariant forall k :: at + i <= k < buf.Length ==> buf[k] == old(buf[k])
    {
      buf[at + i] := item[i];
      i := i + 1;
    }
    assert buf[..at + |item|] == buf[..at] + buf[at..at + |item|];
  }

  /**
   * stringifyAppend: appends `item`, preceded by a space when `withSpace`,
   * and its terminator at `pos` when they fit in the `cb` free bytes;
   * otherwise writes nothing.
   */
  method Append(buf: array<char>, pos: nat, cb: nat, item: string, withSpace: bool, ghost text: string)
    returns (pos2: nat, cb2: nat)
    requires pos + cb == buf.Length
    requires |text| == pos && buf[..pos] == text
    requires NUL !in item
    modifies buf
    ensures var r := AppendStep(Sink(text, cb), item, withSpace);
            pos2 == |r.text| && cb2 == r.cb && buf[..pos2] == r.text
    ensures Fits(cb, item, withSpace) ==> pos2 < buf.Length && buf[pos2] == NUL
    ensures !Fits(cb, item, withSpace) ==> buf[..] == old(buf[..])
    ensures forall k :: pos2 < k < buf.Length ==> buf[k] == old(buf[k])
  {
    pos2, cb2 := pos, cb;
    if |item| + 1 + SpaceLen(withSpace) <= cb {
      if withSpace {
        buf[pos2] := ' ';
        pos2 := pos2 + 1;
        cb2 := cb2 - 1;
      }
      assert buf[..pos2] == text + (if withSpace then " " else "");
      CopyInto(buf, pos2, item);
      buf[pos2 + |item|] := NUL;
      cb2 := cb2 - |item|;
      pos2 := pos2 + |item|;
    }
  }

  // ---------------------------------------------------------------------
  // Rendering a flag word
  // ---------------------------------------------------------------------

  /** The descriptor loop from entry `i` on: matched entries append their name and lose their bits. */
  function AppendDescs(s: Sink, flags: bv32, descs: seq<FlagDesc>, i: nat): (r: (Sink, bv32))
    requires i <= |descs|
    decreases |descs| - i
  {
    if i == |descs| then (s, flags)
    else if Meets(flags, descs[i].f) then
      AppendDescs(AppendStep(s, descs[i].name, s.text != ""), Clear(flags, descs[i].f), descs, i + 1)
    else
      AppendDescs(s, flags, descs, i + 1)
  }

  /** The unknown-bit loop from bit `iBit` on; every append after the first asks for a space. */
  function AppendBits(s: Sink, flags: bv32, iBit: nat, withSpace: bool): (r: Sink)
    requires iBit <= 32
    ensures s.text <= r.text && |r.text| + r.cb == |s.text| + s.cb
    decreases 32 - iBit
  {
    if iBit == 32 then s
    else if HasBit(flags, iBit) then
      AppendBits(AppendStep(s, BitName(iBit), withSpace), flags, iBit + 1, true)
    else
      AppendBits(s, flags, iBit + 1, withSpace)
  }

  /** What a non-zero flag word writes into a buffer of `cb` bytes. */
  function Rendered(flags: bv32, descs: seq<FlagDesc>, cb: nat): Sink
  {
    var (s, left) := AppendDescs(Sink("", cb), flags, descs, 0);
    if left != 0 then AppendBits(s, left, 0, s.text != "") else s
  }

  predicate CleanNames(descs: seq<FlagDesc>)
  {
    forall i :: 0 <= i < |descs| ==> NUL !in descs[i].name
  }

  /**
   * stringifyAppendUnknownFlags: appends "BIT(n)" for every set bit n, in
   * ascending order.
   */
  method AppendUnknownFlags(flags: bv32, buf: array<char>, pos: nat, cb: nat, withSpace: bool, ghost text: string)
    returns (pos2: nat, cb2: nat)
    requires pos + cb == buf.Length
    requires |text| == pos && buf[..pos] == text
    requires text != "" ==> pos < buf.Length && buf[pos] == NUL
    modifies buf
    ensures pos2 + cb2 == buf.Length
    ensures var r := AppendBits(Sink(text, cb), flags, 0, withSpace);
            pos2 == |r.text| && cb2 == r.cb && buf[..pos2] == r.text
    ensures buf[..pos2] != "" ==> pos2 < buf.Length && buf[pos2] == NUL
    ensures forall k :: pos2 < k < buf.Length ==> buf[k] == old(buf[k])
  {
    ghost var final := AppendBits(Sink(text, cb), flags, 0, withSpace);
    pos2, cb2 := pos, cb;
    var sp := withSpace;
    ghost var cur := text;
    for iBit := 0 to 32
      invariant pos2 + cb2 == buf.Length
      invariant |cur| == pos2 && buf[..pos2] == cur
      invariant cur != "" ==> pos2 < buf.Length && buf[pos2] == NUL
      invariant AppendBits(Sink(cur, cb2), flags, iBit, sp) == final
      invariant forall k :: pos2 < k < buf.Length ==> buf[k] == old(buf[k])
    {
      if HasBit(flags, iBit) {
        var name := "BIT(" + Numerals.Decimal(iBit) + ")";
        assert name == BitName(iBit);
        ghost var next := AppendStep(Sink(cur, cb2), name, sp);
        pos2, cb2 := Append(buf, pos2, cb2, name, sp, cur);
        cur := next.text;
        sp := true;
      }
    }
  }

  /**
   * stringifyFlags: a zero word is written as "0"; otherwise the matching
   * entries' names in table order, then the leftover bits.  The result is the
   * start of the buffer.
   */
  method StringifyFlags(flags: bv32, buf: array<char>, descs: seq<FlagDesc>) returns (start: nat)
    requires flags == 0 ==> buf.Length >= 2
    requires CleanNames(descs)
    modifies buf
    ensures start == 0
    ensures flags == 0 ==> buf[..2] == ['0', NUL] && buf[2..] == old(buf[2..])
    ensures flags != 0 ==>
              var r := Rendered(flags, descs, buf.Length);
              |r.text| <= buf.Length && buf[..|r.text|] == r.text
              && (r.text != "" ==> |r.text| < buf.Length && buf[|r.text|] == NUL)
              && (forall k :: |r.text| < k < buf.Length ==> buf[k] == old(buf[k]))
  {
    start := 0;
    if flags != 0 {
      var pos: nat, cb: nat := 0, buf.Length;
      var left := flags;
      ghost var cur: string := "";
      ghost var final := AppendDescs(Sink("", buf.Length), flags, descs, 0);
      for i := 0 to |descs|
        invariant pos + cb == buf.Length
        invariant |cur| == pos && buf[..pos] == cur
        invariant cur != "" ==> pos < buf.Length && buf[pos] == NUL
        invariant AppendDescs(Sink(cur, cb), left, descs, i) == final
        invariant forall k :: pos < k < buf.Length ==> buf[k] == old(buf[k])
      {
        if Meets(left, descs[i].f) {
          left := Clear(left, descs[i].f);
          ghost var next := AppendStep(Sink(cur, cb), descs[i].name, pos != 0);
          pos, cb := Append(buf, pos, cb, descs[i].name, pos != 0, cur);
          cur := next.text;
        }
      }
      if left != 0 {
        pos, cb := AppendUnknownFlags(left, buf, pos, cb, pos != 0, cur);
      }
    } else {
      buf[0] := '0';
      buf[1] := NUL;
    }
  }

  // ---------------------------------------------------------------------
  // What the rendering means
  // ---------------------------------------------------------------------

  /** The union of the masks of entries `i` onwards. */
  function MaskFrom(descs: seq<FlagDesc>, i: nat): bv32
    requires i <= |descs|
    decreases |descs| - i
  {
    if i == |descs| then 0 else descs[i].f | MaskFrom(descs, i + 1)
  }

  /** The word with the masks of entries `i` onwards cleared one after the other. */
  function Leftover(flags: bv32, descs: seq<FlagDesc>, i: nat): bv32
    requires i <= |descs|
    decreases |descs| - i
  {
    if i == |descs| then flags else Leftover(Clear(flags, descs[i].f), descs, i + 1)
  }

  /** The descriptor loop leaves exactly the bits of `Leftover` set. */
  lemma {:induction false} AppendDescsLeftover(s: Sink, flags: bv32, descs: seq<FlagDesc>, i: nat)
    requires i <= |descs|
    ensures AppendDescs(s, flags, descs, i).1 == Leftover(flags, descs, i)
    decreases |descs| - i
  {
    if i < |descs| {
      if Meets(flags, descs[i].f) {
        AppendDescsLeftover(AppendStep(s, descs[i].name, s.text != ""), Clear(flags, descs[i].f), descs, i + 1);
      } else {
        AppendDescsLeftover(s, flags, descs, i + 1);
        ClearDisjoint(flags, descs[i].f);
      }
    }
  }

  /** The bits left for "BIT(n)" are exactly those no table entry covers. */
  lemma {:induction false} LeftoverIsUncovered(flags: bv32, descs: seq<FlagDesc>, i: nat)
    requires i <= |descs|
    ensures Leftover(flags, descs, i) == Clear(flags, MaskFrom(descs, i))
    decreases |descs| - i
  {
    if i == |descs| {
      ClearNothing(flags);
    } else {
      var f, u := descs[i].f, MaskFrom(descs, i + 1);
      LeftoverIsUncovered(Clear(flags, f), descs, i + 1);
      ClearBoth(flags, f, u);
      calc {
        Leftover(flags, descs, i);
        Leftover(Clear(flags, f), descs, i + 1);
        Clear(Clear(flags, f), u);
        Clear(flags, f | u);
        Clear(flags, MaskFrom(descs, i));
      }
    }
  }

  lemma ClearNothing(x: bv32)
    ensures Clear(x, 0) == x
  {
  }

  lemma ClearBoth(x: bv32, f: bv32, u: bv32)
    ensures Clear(Clear(x, f), u) == Clear(x, f | u)
  {
  }

  lemma ClearDisjoint(x: bv32, f: bv32)
    requires !Meets(x, f)
    ensures Clear(x, f) == x
  {
  }

  /** The names of the entries that match, in table order, each tested against the bits still set. */
  function DescNames(flags: bv32, descs: seq<FlagDesc>, i: nat): seq<string>
    requires i <= |descs|
    decreases |descs| - i
  {
    if i == |descs| then []
    else if Meets(flags, descs[i].f) then [descs[i].name] + DescNames(Clear(flags, descs[i].f), descs, i + 1)
    else DescNames(flags, descs, i + 1)
  }

  /** The set bits of `flags` from bit `k` on, lowest first. */
  function SetBits(flags: bv32, k: nat): seq<nat>
    requires k <= 32
    decreases 32 - k
  {
    if k == 32 then []
    else if HasBit(flags, k) then [k] + SetBits(flags, k + 1)
    else SetBits(flags, k + 1)
  }

  /** SetBits lists every set bit from `k` on, and nothing else, in strictly ascending order. */
  lemma {:induction false} SetBitsExact(flags: bv32, k: nat)
    requires k <= 32
    ensures forall n :: n in SetBits(flags, k) <==> k <= n < 32 && HasBit(flags, n)
    ensures forall a, b :: 0 <= a < b < |SetBits(flags, k)| ==> SetBits(flags, k)[a] < SetBits(flags, k)[b]
    decreases 32 - k
  {
    if k < 32 {
      SetBitsExact(flags, k + 1);
      var rest := SetBits(flags, k + 1);
      if HasBit(flags, k) {
        assert SetBits(flags, k) == [k] + rest;
        forall n ensures n in SetBits(flags, k) <==> k <= n < 32 && HasBit(flags, n) {
          assert n in SetBits(flags, k) <==> n == k || n in rest;
        }
        assert forall j :: 0 <= j < |rest| ==> rest[j] in rest;
        assert forall j :: 0 <= j < |rest| ==> k < rest[j];
      } else {
        assert SetBits(flags, k) == rest;
      }
    }
  }

  function BitNames(bits: seq<nat>): (r: seq<string>)
    ensures |r| == |bits| && forall j :: 0 <= j < |bits| ==> r[j] == BitName(bits[j])
  {
    if bits == [] then [] else [BitName(bits[0])] + BitNames(bits[1..])
  }

  /** "BIT(n)" is shown for a leftover word exactly when bit n is set in it. */
  lemma BitShownIff(left: bv32, n: nat)
    requires n < 32
    ensures BitName(n) in BitNames(SetBits(left, 0)) <==> HasBit(left, n)
  {
    SetBitsExact(left, 0);
    var bits := SetBits(left, 0);
    if BitName(n) in BitNames(bits) {
      var j :| 0 <= j < |bits| && BitNames(bits)[j] == BitName(n);
      BitNameInjective(bits[j], n);
    }
    if HasBit(left, n) {
      assert n in bits;
      var j :| 0 <= j < |bits| && bits[j] == n;
      assert BitNames(bits)[j] == BitName(n);
    }
  }

  /** Everything the word renders to, in order. */
  function Items(flags: bv32, descs: seq<FlagDesc>): seq<string>
  {
    DescNames(flags, descs, 0) + BitNames(SetBits(Leftover(flags, descs, 0), 0))
  }

  /** Items separated by single spaces. */
  function Join(items: seq<string>): string
  {
    if items == [] then ""
    else if |items| == 1 then items[0]
    else items[0] + " " + Join(items[1..])
  }

  /** Bytes the items need: each name and one separator or terminator. */
  function Room(items: seq<string>): nat
  {
    if items == [] then 0 else |items[0]| + 1 + Room(items[1..])
  }

  predicate NonEmptyNames(items: seq<string>)
  {
    forall j :: 0 <= j < |items| ==> items[j] != ""
  }

  /** Appending items one after the other, each with a space once anything has been written. */
  function AppendItems(s: Sink, items: seq<string>): (r: Sink)
    ensures |r.text| + r.cb == |s.text| + s.cb
    decreases |items|
  {
    if items == [] then s else AppendItems(AppendStep(s, items[0], s.text != ""), items[1..])
  }

  lemma {:induction false} DescsAsItems(s: Sink, flags: bv32, descs: seq<FlagDesc>, i: nat)
    requires i <= |descs|
    ensures AppendDescs(s, flags, descs, i).0 == AppendItems(s, DescNames(flags, descs, i))
    decreases |descs| - i
  {
    if i < |descs| {
      if Meets(flags, descs[i].f) {
        DescsAsItems(AppendStep(s, descs[i].name, s.text != ""), Clear(flags, descs[i].f), descs, i + 1);
        var t := DescNames(Clear(flags, descs[i].f), descs, i + 1);
        assert ([descs[i].name] + t)[1..] == t;
      } else {
        DescsAsItems(s, flags, descs, i + 1);
      }
    }
  }

  /** The names of the set bits from `k` on, when bit `k` is set: its name first, then the rest. */
  lemma SetBitNames(flags: bv32, k: nat)
    requires k < 32 && HasBit(flags, k)
    ensures var names := BitNames(SetBits(flags, k));
            names != [] && names[0] == BitName(k) && names[1..] == BitNames(SetBits(flags, k + 1))
  {
    var rest := SetBits(flags, k + 1);
    assert SetBits(flags, k) == [k] + rest;
    assert BitNames([k] + rest) == [BitName(k)] + BitNames(rest);
  }

  lemma {:induction false} BitsAsItems(s: Sink, flags: bv32, k: nat, withSpace: bool)
    requires k <= 32
    requires withSpace == (s.text != "")
    requires s.cb > Room(BitNames(SetBits(flags, k)))
    ensures AppendBits(s, flags, k, withSpace) == AppendItems(s, BitNames(SetBits(flags, k)))
    decreases 32 - k
  {
    if k < 32 {
      if HasBit(flags, k) {
        SetBitNames(flags, k);
        BitsAsItems(AppendStep(s, BitName(k), withSpace), flags, k + 1, true);
      } else {
        BitsAsItems(s, flags, k + 1, withSpace);
      }
    }
  }

  lemma {:induction false} JoinLength(items: seq<string>)
    requires items != []
    ensures |Join(items)| + 1 == Room(items)
  {
    if |items| > 1 {
      JoinLength(items[1..]);
    }
  }

  lemma {:induction false} JoinEmpty(items: seq<string>)
    requires NonEmptyNames(items)
    ensures Join(items) == "" <==> items == []
  {
  }

  /** With room for everything, appending items writes them joined by single spaces. */
  lemma {:induction false} ItemsWithRoom(s: Sink, items: seq<string>)
    requires NonEmptyNames(items)
    requires s.cb > Room(items)
    ensures AppendItems(s, items).text ==
              if items == [] then s.text
              else if s.text == "" then Join(items)
              else s.text + " " + Join(items)
    decreases |items|
  {
    if items != [] {
      var s1 := AppendStep(s, items[0], s.text != "");
      assert Fits(s.cb, items[0], s.text != "");
      assert s1.text == if s.text == "" then items[0] else s.text + " " + items[0];
      ItemsWithRoom(s1, items[1..]);
      if |items| > 1 {
        assert items == [items[0]] + items[1..];
      }
    }
  }

  lemma {:induction false} AppendItemsConcat(s: Sink, a: seq<string>, b: seq<string>)
    ensures AppendItems(s, a + b) == AppendItems(AppendItems(s, a), b)
    decreases |a|
  {
    if a != [] {
      assert (a + b)[0] == a[0];
      assert (a + b)[1..] == a[1..] + b;
      AppendItemsConcat(AppendStep(s, a[0], s.text != ""), a[1..], b);
    } else {
      assert a + b == b;
    }
  }

  lemma {:induction false} RoomConcat(a: seq<string>, b: seq<string>)
    ensures Room(a + b) == Room(a) + Room(b)
    decreases |a|
  {
    if a != [] {
      assert (a + b)[0] == a[0];
      assert (a + b)[1..] == a[1..] + b;
      RoomConcat(a[1..], b);
    } else {
      assert a + b == b;
    }
  }

  lemma {:induction false} JoinConcat(a: seq<string>, b: seq<string>)
    requires a != [] && b != []
    ensures Join(a + b) == Join(a) + " " + Join(b)
    decreases |a|
  {
    if |a| == 1 {
      assert (a + b)[1..] == b;
    } else {
      assert (a + b)[1..] == a[1..] + b;
      JoinConcat(a[1..], b);
    }
  }

  /**
   * When the buffer has room for every item, a non-zero word is written as
   * the matching names in table order and then the leftover bits as
   * "BIT(n)", each item after the first preceded by exactly one space.
   */
  lemma RenderedWithRoom(flags: bv32, descs: seq<FlagDesc>, cb: nat)
    requires flags != 0
    requires forall i :: 0 <= i < |descs| ==> descs[i].name != ""
    requires cb > Room(Items(flags, descs))
    ensures Rendered(flags, descs, cb).text == Join(Items(flags, descs))
  {
    var d := DescNames(flags, descs, 0);
    var (s1, left) := AppendDescs(Sink("", cb), flags, descs, 0);
    AppendDescsLeftover(Sink("", cb), flags, descs, 0);
    var b := BitNames(SetBits(left, 0));
    assert Items(flags, descs) == d + b;
    RoomConcat(d, b);
    DescNamesFromTable(flags, descs, 0);
    DescsAsItems(Sink("", cb), flags, descs, 0);
    ItemsWithRoom(Sink("", cb), d);
    assert s1.text == Join(d);
    JoinEmpty(d);
    if d != [] {
      JoinLength(d);
    }
    assert s1.cb > Room(b);
    if left != 0 {
      BitsAsItems(s1, left, 0, s1.text != "");
      ItemsWithRoom(s1, b);
      if d != [] && b != [] {
        JoinConcat(d, b);
      } else if d == [] {
        assert d + b == b;
      } else {
        assert d + b == d;
      }
    } else {
      SetBitsOfZero(0);
      assert d + b == d;
    }
  }

  lemma {:induction false} SetBitsOfZero(k: nat)
    requires k <= 32
    ensures SetBits(0, k) == []
    decreases 32 - k
  {
    if k < 32 {
      assert !HasBit(0, k);
      SetBitsOfZero(k + 1);
    }
  }

  lemma {:induction false} DescNamesFromTable(flags: bv32, descs: seq<FlagDesc>, i: nat)
    requires i <= |descs|
    requires forall j :: 0 <= j < |descs| ==> descs[j].name != ""
    ensures NonEmptyNames(DescNames(flags, descs, i))
    decreases |descs| - i
  {
    if i < |descs| {
      if Meets(flags, descs[i].f) {
        DescNamesFromTable(Clear(flags, descs[i].f), descs, i + 1);
      } else {
        DescNamesFromTable(flags, descs, i + 1);
      }
    }
  }

  // ---------------------------------------------------------------------
  // The three descriptor tables
  // ---------------------------------------------------------------------

  const MEM_COMMIT: bv32 := 0x1000
  const MEM_RESERVE: bv32 := 0x2000
  const MEM_DECOMMIT: bv32 := 0x4000
  const MEM_FREE: bv32 := 0x10000
  const MEM_PRIVATE: bv32 := 0x20000
  const MEM_MAPPED: bv32 := 0x40000
  const MEM_IMAGE: bv32 := 0x1000000

  const PAGE_NOACCESS: bv32 := 0x01
  const PAGE_READONLY: bv32 := 0x02
  const PAGE_READWRITE: bv32 := 0x04
  const PAGE_WRITECOPY: bv32 := 0x08
  const PAGE_EXECUTE: bv32 := 0x10
  const PAGE_EXECUTE_READ: bv32 := 0x20
  const PAGE_EXECUTE_READWRITE: bv32 := 0x40
  const PAGE_EXECUTE_WRITECOPY: bv32 := 0x80
  const PAGE_GUARD: bv32 := 0x100
  const PAGE_NOCACHE: bv32 := 0x200
  const PAGE_WRITECOMBINE: bv32 := 0x400

  const MemTypes: seq<FlagDesc> :=
    [FlagDesc(MEM_PRIVATE, "PRIVATE"), FlagDesc(MEM_MAPPED, "MAPPED"), FlagDesc(MEM_IMAGE, "IMAGE")]

  /** The state table, spelling of "DECOMMMIT" included. */
  const MemStates: seq<FlagDesc> :=
    [FlagDesc(MEM_FREE, "FREE"), FlagDesc(MEM_COMMIT, "COMMIT"),
     FlagDesc(MEM_RESERVE, "RESERVE"), FlagDesc(MEM_DECOMMIT, "DECOMMMIT")]

  const Protections: seq<FlagDesc> :=
    [FlagDesc(PAGE_NOACCESS, "NOACCESS"), FlagDesc(PAGE_READONLY, "READONLY"),
     FlagDesc(PAGE_READWRITE, "READWRITE"), FlagDesc(PAGE_WRITECOPY, "WRITECOPY"),
     FlagDesc(PAGE_EXECUTE, "EXECUTE"), FlagDesc(PAGE_EXECUTE_READ, "EXECUTE_READ"),
     FlagDesc(PAGE_EXECUTE_READWRITE, "EXECUTE_READWRITE"),
     FlagDesc(PAGE_EXECUTE_WRITECOPY, "EXECUTE_WRITECOPY"),
     FlagDesc(PAGE_GUARD, "GUARD"), FlagDesc(PAGE_NOCACHE, "NOCACHE"),
     FlagDesc(PAGE_WRITECOMBINE, "WRITECOMBINE")]

  /** No two entries of the table share a bit, so no entry hides another. */
  predicate DisjointBits(descs: seq<FlagDesc>)
  {
    forall i, j :: 0 <= i < j < |descs| ==> descs[i].f & descs[j].f == 0
  }

  lemma MemTypesDisjoint()
    ensures DisjointBits(MemTypes)
  {
  }

  lemma MemStatesDisjoint()
    ensures DisjointBits(MemStates)
  {
  }

  lemma ProtectionsDisjoint()
    ensures DisjointBits(Protections)
  {
  }

  /** A committed, reserved region is shown as "COMMIT RESERVE". */
  lemma MemStateExample()
    ensures Items(MEM_COMMIT | MEM_RESERVE, MemStates) == ["COMMIT", "RESERVE"]
  {
    var flags: bv32 := MEM_COMMIT | MEM_RESERVE;
    assert !Meets(flags, MEM_FREE) && Meets(flags, MEM_COMMIT);
    assert Clear(flags, MEM_COMMIT) == MEM_RESERVE;
    assert Meets(MEM_RESERVE, MEM_RESERVE) && Clear(MEM_RESERVE, MEM_RESERVE) == 0;
    assert !Meets(0, MEM_DECOMMIT) && Clear(0, MEM_DECOMMIT) == 0;
    assert DescNames(0, MemStates, 3) == [];
    assert DescNames(MEM_RESERVE, MemStates, 2) == ["RESERVE"];
    assert DescNames(flags, MemStates, 0) == ["COMMIT", "RESERVE"];
    assert Leftover(0, MemStates, 4) == 0;
    assert Leftover(0, MemStates, 3) == 0;
    assert Leftover(MEM_RESERVE, MemStates, 2) == 0;
    assert Leftover(flags, MemStates, 0) == 0;
    SetBitsOfZero(0);
  }
}
