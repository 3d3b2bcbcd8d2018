/**
 * The character device of device/chardev.c: a busy flag that admits one opener at a
 * time, an 80-byte message buffer filled on every open, and a message cursor that
 * each read advances.  `put_user` is modelled as the sequence of bytes a read hands
 * to the caller.
 */
module CharDev {
  import Numerals
  import opened CStrings

  const BUF_LEN: nat := 80
  const SUCCESS: int := 0
  /** Linux errno values returned negated by the driver. */
  const EBUSY: int := 16
  const EINVAL: int := 22

  const INT32_MIN: int := -0x8000_0000
  const INT32_MAX: int := 0x7fff_ffff

  predicate IsInt32(i: int) { INT32_MIN <= i <= INT32_MAX }

  /** The `static int counter` after `counter++`; signed overflow is taken as two's-complement wrap. */
  function NextCounter(c: int): (r: int)
    requires IsInt32(c)
    ensures IsInt32(r)
    ensures c < INT32_MAX ==> r == c + 1
  {
    if c == INT32_MAX then INT32_MIN else c + 1
  }

  /** What device_open prints into the message buffer for a given counter value. */
  function MessageText(counter: int): string
  {
    "If I told you once, I told you " + Numerals.SignedDecimal(counter) + " times - " + "Hello, world\n"
  }

  /**
   * The buffer-size argument of device_open: for every 32-bit counter the message and
   * its terminating NUL fit in BUF_LEN bytes, and the message holds no NUL of its own.
   */
  lemma MessageFits(counter: int)
    requires IsInt32(counter)
    ensures |MessageText(counter)| + 1 <= BUF_LEN
    ensures NUL !in MessageText(counter)
  {
    Numerals.Int32TextLength(counter);
    var t := MessageText(counter);
    var d := Numerals.SignedDecimal(counter);
    assert NUL !in d by {
      var m: nat := if counter < 0 then -counter else counter;
      var digits := Numerals.Decimal(m);
      assert forall i :: 0 <= i < |digits| ==> digits[i] != NUL;
    }
  }

  /**
   * sprintf("%s", text) into `buf`: the text and its NUL are written at the start,
   * the rest of the buffer is left as it was.
   */
  method PrintInto(buf: array<char>, text: string)
    requires |text| < buf.Length
    modifies buf
    ensures buf[..|text|] == text && buf[|text|] == NUL
    ensures buf[|text| + 1..] == old(buf[|text| + 1..])
  {
    var i := 0;
    while i < |text|
      invariant 0 <= i <= |text|
      invariant buf[..i] == text[..i]
      invariant buf[|text|..] == old(buf[|text|..])
    {
      buf[i] := text[i];
      i := i + 1;
    }
    buf[i] := NUL;
    assert buf[|text| + 1..] == old(buf[|text|..])[1..];
  }

  function Min(a: nat, b: nat): nat { if a <= b then a else b }

  class Device {
    /** Device_Open: how many openers currently hold the device. */
    var deviceOpen: int
    /** The static counter of device_open. */
    var counter: int
    /** Message[BUF_LEN]. */
    var message: array<char>
    /** Message_Ptr, as an index into `message`. */
    var ptr: nat
    /** False while Message_Ptr is still the NULL it starts as. */
    var ptrSet: bool

    ghost predicate Valid()
      reads this, message
    {
      message.Length == BUF_LEN && IsInt32(counter) &&
      ptr < message.Length && NUL in message[ptr..]
    }

    /** The bytes a reader has still to receive: the C string at Message_Ptr. */
    ghost function Pending(): seq<char>
      reads this, message
      requires Valid()
    {
      CString(message[ptr..])
    }

    /** The module's static state at load time: closed, counter 0, zeroed buffer. */
    constructor ()
      ensures Valid() && fresh(message)
      ensures deviceOpen == 0 && counter == 0 && !ptrSet
    {
      message := new char[BUF_LEN](_ => NUL);
      deviceOpen, counter, ptr, ptrSet := 0, 0, 0, false;
      new;
      assert message[0..][0] == NUL;
    }

    /** device_open: refuses a second opener, otherwise prints a fresh message and rewinds. */
    method Open() returns (rc: int)
      requires Valid()
      modifies this, message
      ensures Valid() && message == old(message)
      ensures old(deviceOpen) != 0 ==>
        rc == -EBUSY && deviceOpen == old(deviceOpen) && counter == old(counter) &&
        ptr == old(ptr) && ptrSet == old(ptrSet) && message[..] == old(message[..])
      ensures old(deviceOpen) == 0 ==>
        rc == SUCCESS && deviceOpen == old(deviceOpen) + 1 && counter == NextCounter(old(counter)) &&
        ptr == 0 && ptrSet && Pending() == MessageText(old(counter))
    {
      if deviceOpen != 0 {
        return -EBUSY;
      }
      deviceOpen := deviceOpen + 1;
      var text := MessageText(counter);
      MessageFits(counter);
      PrintInto(message, text);
      counter := NextCounter(counter);
      ptr, ptrSet := 0, true;
      assert message[0..] == message[..];
      assert message[..][..|text|] == text;
      CStringOfTerminated(message[..], text);
      assert message[..][|text|] == NUL;
      rc := SUCCESS;
    }

    /** device_release: one opener fewer. */
    method Release() returns (rc: int)
      modifies this`deviceOpen
      ensures deviceOpen == old(deviceOpen) - 1 && rc == SUCCESS
    {
      deviceOpen := deviceOpen - 1;
      rc := SUCCESS;
    }

    /**
     * device_read: hands over the next `min(length, pending)` message bytes, in order,
     * and advances Message_Ptr past them; at the end of the message it returns 0.
     * The kernel calls it only on an opened file, so Message_Ptr is set.
     */
    method Read(length: nat) returns (n: nat, copied: seq<char>)
      requires Valid() && ptrSet
      modifies this`ptr
      ensures Valid()
      ensures n == Min(length, |old(Pending())|) && |copied| == n
      ensures copied == old(Pending())[..n]
      ensures ptr == old(ptr) + n && Pending() == old(Pending())[n..]
    {
      ghost var s := message[..];
      ghost var p0 := ptr;
      assert message[ptr..] == s[ptr..];
      ghost var e := CStringEnd(s, ptr);
      copied := [];
      n := 0;
      if message[ptr] == NUL {
        CStringUpTo(s, p0, e);
        return;
      }
      var left := length;
      while left > 0 && message[ptr] != NUL
        invariant p0 <= ptr <= e && ptr == p0 + n && n + left == length
        invariant copied == s[p0..ptr]
        decreases left
      {
        copied := copied + [message[ptr]];
        ptr := ptr + 1;
        left := left - 1;
        n := n + 1;
      }
      CStringAdvance(s, p0, ptr, e);
      assert message[ptr..] == s[ptr..];
    }

    /** device_write: writing is not supported. */
    method Write(buffer: seq<char>) returns (rc: int)
      ensures rc == -EINVAL && rc < 0
    {
      rc := -EINVAL;
    }
  }
}
