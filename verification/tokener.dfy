/** The byte cursor of the proxy-url tool (class qh::Tokener in proxy_url/proxy_url/tokener.h).
    A Tokener borrows a byte buffer and keeps a read position in it; every scanning
    operation moves that position.  The buffer is a sequence of bytes, the position a
    natural number that may run past the end of the buffer (next() keeps advancing there).

    Where the C code dereferences the position it reads through ByteAt, which yields the
    byte at that index or 0 at and past the end (the terminator a std::string keeps after
    its last byte). */
module Tokener {

  /** One byte of the buffer.  A C `char` is read here as its unsigned value; Signed gives
      the value of a signed `char`, for the comparisons the source makes on signed chars. */
  newtype Byte = b: int | 0 <= b < 256

  const SPACE: Byte := 32     // ' '
  const NEWLINE: Byte := 10   // '\n'

  /** The value of a signed C `char` holding byte b. */
  function Signed(b: Byte): (v: int)
    ensures -128 <= v < 128
    ensures v % 256 == b as int
    ensures (v < 0) == (b >= 128)
  {
    if b < 128 then b as int else b as int - 256
  }

  /** The bytes skipSpaces and nextClean step over: a signed char c with 0 < c <= ' '.
      A NUL and every byte with the high bit set (negative as a signed char) stop them. */
  predicate IsSpace(b: Byte)
  {
    0 < Signed(b) <= SPACE as int
  }

  /** isEnd() at index i: at or past the end of the buffer, or on an embedded NUL. */
  predicate AtEnd(data: seq<Byte>, i: nat)
  {
    i >= |data| || data[i] == 0
  }

  /** current() at index i: 0 when isEnd() holds there, else the byte at i. */
  function ByteAt(data: seq<Byte>, i: nat): (b: Byte)
    ensures b == 0 <==> AtEnd(data, i)
    ensures b == if i < |data| then data[i] else 0
  {
    if AtEnd(data, i) then 0 else data[i]
  }

  /** Where skipTo(to) started at i stops reading: the first index j >= i that is at the
      end (which next() reports as 0) or that holds `to`. */
  function SkipStop(data: seq<Byte>, i: nat, to: Byte): (j: nat)
    ensures i <= j
    ensures ByteAt(data, j) == 0 || ByteAt(data, j) == to
    ensures forall k :: i <= k < j ==> ByteAt(data, k) != 0 && ByteAt(data, k) != to
    decreases |data| - i
  {
    if AtEnd(data, i) || data[i] == to then i else SkipStop(data, i + 1, to)
  }

  /** Where skipBackTo(to) started at i stops: the last index j < i at which current()
      yields `to`, or -1 when there is none. */
  function BackStop(data: seq<Byte>, i: nat, to: Byte): (j: int)
    ensures -1 <= j < i
    ensures j >= 0 ==> ByteAt(data, j) == to
    ensures forall k: nat :: j < k < i ==> ByteAt(data, k) != to
    decreases i
  {
    if i == 0 then -1
    else if ByteAt(data, i - 1) == to then i - 1
    else BackStop(data, i - 1, to)
  }

  /** Where skipSpaces and nextClean started at i stop: the first index j >= i that is
      past the buffer or holds a non-space byte (j == i when i is already past the end). */
  function FirstNonSpace(data: seq<Byte>, i: nat): (j: nat)
    ensures i <= j
    ensures j < |data| ==> !IsSpace(data[j])
    ensures j == i || j <= |data|
    ensures forall k :: i <= k < j ==> k < |data| && IsSpace(data[k])
    decreases |data| - i
  {
    if i >= |data| || !IsSpace(data[i]) then i else FirstNonSpace(data, i + 1)
  }

  /** The index of the last byte nextString() reads when started at a position that is not
      at the end: the first j >= i whose byte is a delimiter (unsigned value <= ' ') or
      after which isEnd() holds. */
  function TokenStop(data: seq<Byte>, i: nat): (j: nat)
    requires !AtEnd(data, i)
    ensures i <= j < |data|
    ensures data[j] <= SPACE || AtEnd(data, j + 1)
    ensures forall k :: i <= k < j ==> SPACE < data[k] && !AtEnd(data, k + 1)
    decreases |data| - i
  {
    if data[i] <= SPACE || AtEnd(data, i + 1) then i else TokenStop(data, i + 1)
  }

  /** What nextString() returns when started at i, as the code is written: the bytes before
      a delimiter, or, when the run is ended by isEnd(), every byte up to the end of the
      buffer -- past an embedded NUL, if that is what ended it. */
  function TokenAsWritten(data: seq<Byte>, i: nat): (r: seq<Byte>)
    ensures r != [] ==> i + |r| <= |data| && r == data[i..i + |r|]
    ensures |Token(data, i)| <= |r| && r[..|Token(data, i)|] == Token(data, i)
  {
    if AtEnd(data, i) then []
    else
      var j := TokenStop(data, i);
      if data[j] <= SPACE then data[i..j] else data[i..]
  }

  /** What nextString() evidently means to return when started at i: the run of bytes up
      to the next delimiter or the next end, an embedded NUL ending it like the buffer end. */
  function Token(data: seq<Byte>, i: nat): (t: seq<Byte>)
    ensures forall k :: 0 <= k < |t| ==> SPACE < t[k]
    ensures t != [] ==> i + |t| <= |data| && t == data[i..i + |t|]
    ensures AtEnd(data, i + |t|) || data[i + |t|] <= SPACE
  {
    if AtEnd(data, i) then []
    else
      var j := TokenStop(data, i);
      if data[j] <= SPACE then data[i..j] else data[i..j + 1]
  }

  /** The corrected token never holds a NUL byte and never reaches past the first end. */
  lemma TokenStopsAtNul(data: seq<Byte>, i: nat)
    ensures 0 !in Token(data, i)
    ensures forall k :: i <= k < i + |Token(data, i)| ==> !AtEnd(data, k)
  {
    var t := Token(data, i);
    forall k | i <= k < i + |t|
      ensures !AtEnd(data, k)
    {
      assert data[k] == t[k - i];
    }
  }

  /** As written, nextString() on "ab\0c" returns all four bytes, the NUL included,
      although it stops the cursor on the NUL. */
  lemma NextStringRunsPastNul()
    ensures TokenStop([97, 98, 0, 99], 0) == 1
    ensures TokenAsWritten([97, 98, 0, 99], 0) == [97, 98, 0, 99]
    ensures Token([97, 98, 0, 99], 0) == [97, 98]
  {
    var data: seq<Byte> := [97, 98, 0, 99];
    assert !AtEnd(data, 0) && !AtEnd(data, 1) && AtEnd(data, 2);
    assert TokenStop(data, 1) == 1;
  }

  /** The code as written and the corrected token agree exactly when the run is ended by a
      delimiter or by the buffer end (its last byte is the buffer's last byte).  A run ended
      by a NUL makes them differ, even when that NUL is the buffer's last byte. */
  lemma TokenAsWrittenAgrees(data: seq<Byte>, i: nat)
    ensures TokenAsWritten(data, i) == Token(data, i) <==>
      AtEnd(data, i) || data[TokenStop(data, i)] <= SPACE || TokenStop(data, i) + 1 >= |data|
  {
    if !AtEnd(data, i) {
      var j := TokenStop(data, i);
      if SPACE < data[j] && j + 1 < |data| {
        assert |TokenAsWritten(data, i)| == |data| - i > j + 1 - i == |Token(data, i)|;
      }
    }
  }

  /** Otherwise the code returns the whole rest of the buffer, the NUL that ended the run and
      every byte after it included, while the corrected token stops before that NUL. */
  lemma TokenAsWrittenRunsPastNul(data: seq<Byte>, i: nat)
    requires !AtEnd(data, i)
    requires SPACE < data[TokenStop(data, i)] && TokenStop(data, i) + 1 < |data|
    ensures var j := TokenStop(data, i);
      data[j + 1] == 0 && TokenAsWritten(data, i) == data[i..] && Token(data, i) == data[i..j + 1]
  {
    var j := TokenStop(data, i);
    assert TokenAsWritten(data, i) == data[i..];
  }

  /** In that case the bytes the code returns hold a NUL, and the corrected token holds none. */
  lemma TokenAsWrittenHoldsNul(data: seq<Byte>, i: nat)
    requires !AtEnd(data, i)
    requires SPACE < data[TokenStop(data, i)] && TokenStop(data, i) + 1 < |data|
    ensures 0 in TokenAsWritten(data, i) && 0 !in Token(data, i)
  {
    TokenAsWrittenRunsPastNul(data, i);
    var j := TokenStop(data, i);
    assert data[i..][j + 1 - i] == data[j + 1];
    TokenStopsAtNul(data, i);
  }

  /** Where nextString(quote) started at i stops reading: the first j >= i whose byte (read
      with the end reading as 0) is `quote`, or after which isEnd() holds. */
  function QuoteStop(data: seq<Byte>, i: nat, quote: Byte): (j: nat)
    ensures i <= j
    ensures ByteAt(data, j) == quote || AtEnd(data, j + 1)
    ensures forall k :: i <= k < j ==> ByteAt(data, k) != quote && !AtEnd(data, k + 1)
    decreases |data| - i
  {
    if ByteAt(data, i) == quote || AtEnd(data, i + 1) then i else QuoteStop(data, i + 1, quote)
  }

  /** The bytes nextString(quote) returns on success hold no `quote` and lie inside the
      buffer, so the quote it stops on is the first one from the start position. */
  lemma QuotedBytesInside(data: seq<Byte>, i: nat, quote: Byte)
    requires ByteAt(data, QuoteStop(data, i, quote)) == quote
    ensures var j := QuoteStop(data, i, quote);
      (i < j ==> j < |data|) && forall k :: i <= k < j ==> data[k] != quote
  {
    var j := QuoteStop(data, i, quote);
    if i < j {
      assert ByteAt(data, j - 1) != quote;
      assert !AtEnd(data, j - 1 + 1);
    }
    forall k | i <= k < j
      ensures data[k] != quote
    {
      assert ByteAt(data, k) != quote;
      assert !AtEnd(data, k + 1);
    }
  }

  /** dehexchar: the value of a base-16 digit, -1 for any other byte. */
  function DeHexChar(c: Byte): (v: int)
    ensures -1 <= v < 16
    ensures v == -1 <==> !(48 <= c <= 57 || 65 <= c <= 70 || 97 <= c <= 102)
  {
    if 48 <= c <= 57 then c as int - 48          // '0'..'9'
    else if 65 <= c <= 70 then c as int - 55     // 'A'..'F'
    else if 97 <= c <= 102 then c as int - 87    // 'a'..'f'
    else -1
  }

  /** The digit byte for a value 0..15, in upper or lower case. */
  function HexDigit(v: int, upper: bool): (c: Byte)
    requires 0 <= v < 16
  {
    if v < 10 then (48 + v) as Byte
    else if upper then (55 + v) as Byte
    else (87 + v) as Byte
  }

  /** dehexchar inverts HexDigit in both cases. */
  lemma DeHexCharOfDigit(v: int, upper: bool)
    requires 0 <= v < 16
    ensures DeHexChar(HexDigit(v, upper)) == v
  {
  }

  /** Every byte dehexchar accepts is the digit of its value, in one of the two cases. */
  lemma DigitOfDeHexChar(c: Byte)
    requires DeHexChar(c) != -1
    ensures c == HexDigit(DeHexChar(c), true) || c == HexDigit(DeHexChar(c), false)
  {
  }

  /** A cursor over a byte buffer.  The source keeps three addresses (start, current, end);
      here the buffer is `data` and the current address is the offset `pos` from its start. */
  class Tokener {
    var data: seq<Byte>
    var pos: nat

    /** Tokener(s): a cursor at the start of s. */
    constructor (s: seq<Byte>)
      ensures data == s && pos == 0
    {
      data := s;
      pos := 0;
    }

    /** Tokener(): a cursor over the empty buffer. */
    constructor Empty()
      ensures data == [] && pos == 0
    {
      data := [];
      pos := 0;
    }

    /** reset(ps, len): start over on another buffer. */
    method Reset(s: seq<Byte>)
      modifies this
      ensures data == s && pos == 0
    {
      data := s;
      pos := 0;
    }

    /** isEnd(): at or past the end, or on a NUL byte.  The bound is tested first, so the
        buffer is never read past its end. */
    predicate IsEnd()
      reads this
    {
      AtEnd(data, pos)
    }

    /** size(): the length of the buffer. */
    function Size(): nat
      reads this
    {
      |data|
    }

    /** getCurPos(): the offset of the position from the start of the buffer. */
    function GetCurPos(): (n: nat)
      reads this
      ensures IsEnd() || n < Size()
    {
      pos
    }

    /** getReadableSize(): the bytes left from the position to the end; negative once
        next() has stepped past the end. */
    function GetReadableSize(): (r: int)
      reads this
      ensures r == Size() - GetCurPos()
      ensures r <= 0 ==> IsEnd()
    {
      |data| - pos
    }

    /** current(): the byte at the position, 0 at the end; the position does not move. */
    function Current(): (c: Byte)
      reads this
      ensures c == 0 <==> IsEnd()
      ensures !IsEnd() ==> c == data[pos]
    {
      ByteAt(data, pos)
    }

    /** back(): step back one byte; refused (no move) at the start of the buffer. */
    method Back() returns (ok: bool)
      modifies this`pos
      ensures ok <==> old(pos) > 0
      ensures pos == if ok then old(pos) - 1 else old(pos)
    {
      if pos <= 0 {
        return false;
      }
      pos := pos - 1;
      return true;
    }

    /** back(backstep): step back `backstep` bytes at once, or not at all when that would
        go before the start.  A negative count moves forward, as the address arithmetic does. */
    method BackSteps(backstep: int) returns (ok: bool)
      modifies this`pos
      ensures ok <==> old(pos) - backstep >= 0
      ensures pos == if ok then old(pos) - backstep else old(pos)
    {
      if pos - backstep < 0 {
        return false;
      }
      pos := pos - backstep;
      return true;
    }

    /** next(): the byte at the position (0 at the end) and one step forward, also at the end. */
    method Next() returns (c: Byte)
      modifies this`pos
      ensures c == ByteAt(data, old(pos))
      ensures pos == old(pos) + 1
    {
      if IsEnd() {
        pos := pos + 1;
        return 0;
      }
      c := data[pos];
      pos := pos + 1;
    }

    /** nextClean(): the next byte that is not a space, consumed; 0 when the buffer runs out.
        A NUL is returned like any other non-space byte. */
    method NextClean() returns (c: Byte)
      modifies this`pos
      ensures var j := FirstNonSpace(data, old(pos));
        if j < |data| then c == data[j] && pos == j + 1 else c == 0 && pos == j
    {
      while pos < |data|
        invariant old(pos) <= pos <= FirstNonSpace(data, old(pos))
        decreases |data| - pos
      {
        c := data[pos];
        pos := pos + 1;
        if !IsSpace(c) {
          return;
        }
      }
      c := 0;
    }

    /** nextString(): the run of bytes up to the next delimiter (a byte whose unsigned value
        is <= ' '), consuming the delimiter; a run ended by isEnd() stops there too, an
        embedded NUL included (the corrected Token; TokenAsWritten is what the code returns).
        Nothing is read or consumed at the end. */
    method NextString() returns (s: seq<Byte>)
      modifies this`pos
      ensures s == Token(data, old(pos))
      ensures AtEnd(data, old(pos)) ==> pos == old(pos)
      ensures !AtEnd(data, old(pos)) ==> pos == TokenStop(data, old(pos)) + 1
    {
      if IsEnd() {
        return [];
      }
      var start := pos;
      while pos < |data|
        invariant start <= pos <= TokenStop(data, start)
        invariant !AtEnd(data, pos)
        decreases |data| - pos
      {
        var c := data[pos];
        pos := pos + 1;
        if c <= SPACE {
          assert TokenStop(data, start) == pos - 1;
          return data[start..pos - 1];
        }
        if IsEnd() {
          assert TokenStop(data, start) == pos - 1;
          return data[start..pos];
        }
      }
      assert false;
      s := [];
    }

    /** nextString(quote): the bytes up to the next `quote`, consuming the quote.  When the
        end comes first, nothing is consumed and the result is empty.  No backslash escape is
        interpreted. */
    method NextStringUntil(quote: Byte) returns (s: seq<Byte>)
      modifies this`pos
      ensures var j := QuoteStop(data, old(pos), quote);
        if ByteAt(data, j) == quote then
          pos == j + 1 && |s| == j - old(pos) &&
          forall k :: 0 <= k < |s| ==> old(pos) + k < |data| && s[k] == data[old(pos) + k]
        else
          pos == old(pos) && s == []
    {
      var start := pos;
      while true
        invariant start <= pos <= QuoteStop(data, start, quote)
        decreases |data| - pos
      {
        var c := ByteAt(data, pos);
        pos := pos + 1;
        if c == quote {
          break;
        }
        if IsEnd() {
          pos := start;
          return [];
        }
      }
      QuotedBytesInside(data, start, quote);
      if start < pos - 1 {
        s := data[start..pos - 1];
      } else {
        s := [];
      }
    }

    /** skipTo(to): move to the next `to`, without consuming it, and return it.  When the end
        comes first the position is restored and 0 is returned. */
    method SkipTo(to: Byte) returns (c: Byte)
      modifies this`pos
      ensures var j := SkipStop(data, old(pos), to);
        if to != 0 && ByteAt(data, j) == to then c == to && pos == j else c == 0 && pos == old(pos)
      ensures c != 0 ==> Current() == to && forall k :: old(pos) <= k < pos ==> k < |data| && data[k] != to
    {
      var start := pos;
      while true
        invariant start <= pos <= SkipStop(data, start, to)
        decreases |data| - pos
      {
        c := Next();
        if c == 0 {
          pos := start;
          return;
        }
        if c == to {
          break;
        }
      }
      var _ := Back();
      forall k | start <= k < pos
        ensures k < |data| && data[k] != to
      {
        assert ByteAt(data, k) != 0;
      }
    }

    /** skipBackTo(to): move back to the previous `to` and step past it, returning it.  When
        the start comes first the position is restored and 0 is returned. */
    method SkipBackTo(to: Byte) returns (c: Byte)
      modifies this`pos
      ensures var j := BackStop(data, old(pos), to);
        if j >= 0 then c == to && pos == j + 1 else c == 0 && pos == old(pos)
    {
      var start := pos;
      while true
        invariant pos <= start
        invariant BackStop(data, pos, to) == BackStop(data, start, to)
        decreases pos
      {
        var ok := Back();
        if !ok {
          pos := start;
          return 0;
        }
        if Current() == to {
          break;
        }
      }
      c := Current();
      var _ := Next();
    }

    /** skipSpaces(): move to the next non-space byte.  True when one is found (the position
        is on it), false when the buffer ran out (the position is at the end). */
    method SkipSpaces() returns (found: bool)
      modifies this`pos
      ensures var j := FirstNonSpace(data, old(pos));
        pos == j && found == (j < |data|)
      ensures forall k :: old(pos) <= k < pos ==> k < |data| && IsSpace(data[k])
    {
      while pos < |data|
        invariant old(pos) <= pos <= FirstNonSpace(data, old(pos))
        decreases |data| - pos
      {
        var c := data[pos];
        pos := pos + 1;
        if !IsSpace(c) {
          var _ := Back();
          return true;
        }
      }
      return false;
    }

    /** skipToNextLine(): move just past the next '\n'.  When there is none, nothing moves and
        the result is false. */
    method SkipToNextLine() returns (ok: bool)
      modifies this`pos
      ensures var j := SkipStop(data, old(pos), NEWLINE);
        ok == (ByteAt(data, j) == NEWLINE) && pos == if ok then j + 1 else old(pos)
    {
      var c := SkipTo(NEWLINE);
      if c == 0 {
        return false;
      }
      var _ := Next();
      return true;
    }
  }
}
