/** The fixed-size buffers of the log, and the integer printer that works inside one. */
module LogStream {
  import opened Decimal

  class FixedBuffer {
    const data: array<char>
    var cur: nat
    var size: nat

    ghost predicate Valid()
      reads this
    {
      cur == size <= data.Length
    }

    /** `toString` */
    ghost function Contents(): string
      requires Valid()
      reads this, data
    {
      data[..size]
    }

    constructor (capacity: nat)
      ensures Valid() && Contents() == "" && data.Length == capacity && fresh(data)
    {
      data := new char[capacity](_ => '\0');
      cur, size := 0, 0;
    }

    function Avail(): nat
      requires Valid()
      reads this
    {
      data.Length - size
    }

    /** Keeps a line only if it leaves room to spare. */
    method Append(buf: string)
      requires Valid()
      modifies this, data
      ensures Valid() && Contents() == old(Contents()) + if old(Avail()) > |buf| then buf else ""
    {
      if Avail() > |buf| {
        forall i | 0 <= i < |buf| {
          data[cur + i] := buf[i];
        }
        Add(|buf|);
      }
    }

    /** Counts in bytes that were written behind the contents. */
    method Add(len: nat)
      requires Valid() && len <= Avail()
      modifies this
      ensures Valid() && size == old(size) + len && Contents() == data[..old(size) + len]
    {
      cur := cur + len;
      size := size + len;
    }

    method Reset()
      requires Valid()
      modifies this
      ensures Valid() && Contents() == ""
    {
      cur, size := 0, 0;
    }
  }

  // ----- The integer printer

  const MAX_NUMBER_SIZE: nat := 32
  const DIGITS: string := "9876543210123456789"

  /** Division and remainder of the language: the quotient is rounded toward zero. */
  function TruncDiv(n: int, d: nat): int
    requires d > 0
  {
    if n < 0 then -(-n / d) else n / d
  }

  function TruncMod(n: int, d: nat): (r: int)
    requires d > 0
    ensures -(d as int) < r < d
  {
    if n < 0 then -(-n % d) else n % d
  }

  /** Least significant digit first. */
  ghost function Backwards(n: nat): string {
    if n < 10 then [DigitChar(n)] else [DigitChar(n % 10)] + Backwards(n / 10)
  }

  ghost function Reverse(s: string): (r: string)
    ensures |r| == |s| && forall i :: 0 <= i < |s| ==> r[i] == s[|s| - 1 - i]
  {
    if s == "" then "" else Reverse(s[1..]) + [s[0]]
  }

  lemma {:induction false} ReverseOfBackwards(n: nat)
    ensures Reverse(Backwards(n)) == Digits(n)
  {
    if n >= 10 {
      ReverseOfBackwards(n / 10);
      assert Backwards(n)[1..] == Backwards(n / 10);
    } else {
      assert Backwards(n)[1..] == "";
    }
  }

  ghost function BackwardsText(n: int): string {
    Backwards(Abs(n)) + if n < 0 then "-" else ""
  }

  lemma ReverseOfBackwardsText(n: int)
    ensures Reverse(BackwardsText(n)) == Text(n)
  {
    ReverseOfBackwards(Abs(n));
    if n < 0 {
      var r := Reverse(BackwardsText(n));
      assert r[0] == '-' && r[1..] == Reverse(Backwards(Abs(n)));
      assert r == "-" + r[1..];
    } else {
      assert BackwardsText(n) == Backwards(n);
    }
  }

  lemma BackwardsTextLength(n: int)
    requires -0x8000_0000_0000_0000 <= n < 0x1_0000_0000_0000_0000
    ensures |BackwardsText(n)| <= 20
  {
    TextLength(n);
    ReverseOfBackwardsText(n);
  }

  lemma BackwardsStep(n: nat, before: string)
    ensures |Backwards(n)| >= 1
    ensures n / 10 == 0 ==> before + Backwards(n) == before + [DigitChar(n % 10)]
    ensures n / 10 != 0 ==> n / 10 < n && before + Backwards(n) == before + [DigitChar(n % 10)] + Backwards(n / 10)
  {
    hide Backwards;
    FirstBackwards(n);
    var digit := [DigitChar(n % 10)];
    assert before + (digit + Backwards(n / 10)) == before + digit + Backwards(n / 10);
  }

  lemma FirstBackwards(n: nat)
    ensures n / 10 == 0 ==> Backwards(n) == [DigitChar(n % 10)]
    ensures n / 10 != 0 ==> n / 10 < n && Backwards(n) == [DigitChar(n % 10)] + Backwards(n / 10)
  {
  }

  lemma MagnitudeIsZero(n: int)
    ensures Abs(n) == 0 <==> n == 0
  {
  }

  /** The digit table is indexed from its middle, by a remainder of either sign. */
  lemma DigitTable(r: int)
    requires -10 < r < 10
    ensures DIGITS[9 + r] == DigitChar(Abs(r))
  {
  }

  class Stream {
    const buffer: FixedBuffer

    constructor (capacity: nat)
      ensures buffer.Valid() && buffer.Contents() == "" && buffer.data.Length == capacity
      ensures fresh(buffer) && fresh(buffer.data)
    {
      buffer := new FixedBuffer(capacity);
    }

    /** One round of the digit loop. */
    method WriteDigit(n: int, start: nat, cur: nat) returns (next: int)
      requires start <= cur < buffer.data.Length
      modifies buffer.data
      ensures Abs(next) == Abs(n) / 10
      ensures buffer.data[start..cur + 1] == old(buffer.data[start..cur]) + [DigitChar(Abs(n) % 10)]
      ensures forall k :: 0 <= k < buffer.data.Length && k != cur ==> buffer.data[k] == old(buffer.data[k])
    {
      var remainder := TruncMod(n, 10);
      DigitTable(remainder);
      buffer.data[cur] := DIGITS[9 + remainder];
      next := TruncDiv(n, 10);
    }

    /** Writes the digits of `num` from `start`, the last one first. */
    method WriteBackwards(num: int, start: nat) returns (cur: nat)
      requires start + |Backwards(Abs(num))| <= buffer.data.Length
      modifies buffer.data
      ensures cur == start + |Backwards(Abs(num))| && buffer.data[start..cur] == Backwards(Abs(num))
      ensures buffer.data[..start] == old(buffer.data[..start])
    {
      hide Backwards, Abs, DigitChar;
      cur := start;
      var n, more := num, true;
      while more
        invariant start <= cur <= buffer.data.Length
        invariant forall k :: 0 <= k < start ==> buffer.data[k] == old(buffer.data[k])
        invariant more ==> buffer.data[start..cur] + Backwards(Abs(n)) == Backwards(Abs(num))
        invariant !more ==> buffer.data[start..cur] == Backwards(Abs(num))
        decreases more, Abs(n)
      {
        ghost var before := buffer.data[start..cur];
        BackwardsStep(Abs(n), before);
        assert |before| + |Backwards(Abs(n))| == |Backwards(Abs(num))|;
        var next := WriteDigit(n, start, cur);
        MagnitudeIsZero(next);
        n, cur, more := next, cur + 1, next != 0;
      }
    }

    /** ... then the sign, and the NUL. */
    method WriteTextBackwards(num: int, start: nat) returns (cur: nat)
      requires -0x8000_0000_0000_0000 <= num < 0x1_0000_0000_0000_0000
      requires start + MAX_NUMBER_SIZE <= buffer.data.Length
      modifies buffer.data
      ensures start <= cur < start + MAX_NUMBER_SIZE && buffer.data[start..cur] == BackwardsText(num)
      ensures buffer.data[cur] == '\0' && buffer.data[..start] == old(buffer.data[..start])
    {
      hide Backwards;
      BackwardsTextLength(num);
      cur := WriteBackwards(num, start);
      ghost var digits := buffer.data[start..cur];
      if num < 0 {
        buffer.data[cur] := '-';
        cur := cur + 1;
        assert buffer.data[start..cur] == digits + "-";
      }
      buffer.data[cur] := '\0';
    }

    /** `std::reverse` */
    method ReverseRange(start: nat, end: nat)
      requires start <= end <= buffer.data.Length
      modifies buffer.data
      ensures buffer.data[start..end] == Reverse(old(buffer.data[start..end]))
      ensures buffer.data[..start] == old(buffer.data[..start])
      ensures forall k :: end <= k < buffer.data.Length ==> buffer.data[k] == old(buffer.data[k])
    {
      hide Reverse;
      ghost var was := buffer.data[start..end];
      var i, j := start, end;
      while i + 1 < j
        invariant start <= i <= j <= end && i - start == end - j
        invariant forall k :: 0 <= k < start || end <= k < buffer.data.Length ==> buffer.data[k] == old(buffer.data[k])
        invariant forall k :: start <= k < i || j <= k < end ==> buffer.data[k] == was[end - 1 - k]
        invariant forall k :: i <= k < j ==> buffer.data[k] == was[k - start]
        decreases j - i
      {
        j := j - 1;
        Swap(i, j);
        i := i + 1;
      }
      assert forall k :: 0 <= k < end - start ==> buffer.data[start..end][k] == buffer.data[start + k] == Reverse(was)[k];
    }

    method Swap(i: nat, j: nat)
      requires i < buffer.data.Length && j < buffer.data.Length
      modifies buffer.data
      ensures buffer.data[i] == old(buffer.data[j]) && buffer.data[j] == old(buffer.data[i])
      ensures forall k :: 0 <= k < buffer.data.Length && k != i && k != j ==> buffer.data[k] == old(buffer.data[k])
    {
      var data := buffer.data;
      data[i], data[j] := data[j], data[i];
    }

    /** Prints an integer of any of the program's types behind the contents, if there is room for
        the longest; a NUL follows the text inside the buffer. */
    method FormatInteger(num: int)
      requires buffer.Valid() && -0x8000_0000_0000_0000 <= num < 0x1_0000_0000_0000_0000
      modifies buffer, buffer.data
      ensures buffer.Valid()
      ensures buffer.Contents() == old(buffer.Contents()) + if old(buffer.Avail()) >= MAX_NUMBER_SIZE then Text(num) else ""
      ensures old(buffer.Avail()) >= MAX_NUMBER_SIZE ==> buffer.Avail() > 0 && buffer.data[buffer.size] == '\0'
    {
      hide Text, BackwardsText, Reverse;
      if buffer.Avail() >= MAX_NUMBER_SIZE {
        var start := buffer.cur;
        var cur := WriteTextBackwards(num, start);
        ReverseRange(start, cur);
        ReverseOfBackwardsText(num);
        assert buffer.data[..cur] == buffer.data[..start] + buffer.data[start..cur];
        buffer.Add(cur - start);
      }
    }
  }
}
