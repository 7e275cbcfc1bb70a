/**
  The thread-id shortening of `src/log.rs`: the text `ThreadId(N)` that a
  thread id formats to is cut into the head `Th` and the tail `Id(N)`, so that
  log lines can print the two halves; any other text is kept whole, or
  replaced by a placeholder when it is not valid UTF-8. Byte strings stand for
  Rust's `&str`; the logging macros themselves are not modelled.
*/
module ThreadIdLog {
  import opened Utf8

  /** The bytes of an ASCII string literal. */
  function AsciiBytes(s: string): (r: seq<byte>)
    requires forall i | 0 <= i < |s| :: s[i] as int < 0x80
    ensures |r| == |s| && IsAscii(r)
    ensures forall i | 0 <= i < |s| :: r[i] as int == s[i] as int
  {
    seq(|s|, i requires 0 <= i < |s| => s[i] as int as byte)
  }

  /** The size of the buffer the thread id is formatted into. */
  const BUF_LEN: nat := 32

  /** The text every formatted thread id starts with. */
  const HEAD: seq<byte> := AsciiBytes("ThreadId(")

  /** The byte `)` that closes a formatted thread id. */
  const CLOSE: byte := 0x29

  /** The text shown when the buffer does not hold valid UTF-8. */
  const PLACEHOLDER: seq<byte> := AsciiBytes("unknown-thereadId-format")

  /** The two halves handed to the log line. */
  datatype Split = Split(head: seq<byte>, tail: seq<byte>)

  /** None of the bytes of `ThreadId(` is `)`, so a buffer starting with it has no `)` among its first 9 bytes. */
  lemma NoCloseInHead(buf: seq<byte>)
    requires HEAD <= buf
    ensures forall i | 0 <= i < |HEAD| :: buf[i] != CLOSE
  {
  }

  /** The shape test: the whole buffer starts with `ThreadId(` and the text ends with `)`. */
  predicate Recognised(buf: seq<byte>, len: nat)
    requires |buf| == BUF_LEN && 1 <= len <= |buf|
  {
    HEAD <= buf && buf[len - 1] == CLOSE
  }

  /**
    `concise_threadid`. The caller guarantees `1 <= len <= 32`. A recognised
    text is at least 10 bytes long, since none of the 9 bytes of `ThreadId(` is
    the closing `)`: that is what keeps both slices in bounds. Its head is `Th`
    and its tail `Id(...)`, non-empty, and `Th`, `read` and the tail give the
    text back. Any other text has an empty tail and is kept whole when it is
    valid UTF-8, else replaced by the placeholder.
  */
  function ConciseThreadId(buf: seq<byte>, len: nat): (r: Split)
    requires |buf| == BUF_LEN && 1 <= len <= |buf|
    ensures Recognised(buf, len) ==>
      && 10 <= len
      && r.head == AsciiBytes("Th")
      && r.tail == buf[|HEAD| - 3..len]
      && r.head + AsciiBytes("read") + r.tail == buf[..len]
      && |r.head| == 2 && |r.tail| == len - 6 >= 4
    ensures !Recognised(buf, len) ==>
      && r.tail == []
      && (ValidUtf8(buf[..len]) ==> r.head == buf[..len])
      && (!ValidUtf8(buf[..len]) ==> r.head == PLACEHOLDER)
  {
    var headVerified := HEAD <= buf;
    var tailVerified := buf[len - 1] == CLOSE;
    if headVerified && tailVerified then
      assert 10 <= len by {
        NoCloseInHead(buf);
      }
      AsciiIsValid(buf[..2]);
      assert buf[..2] == AsciiBytes("Th");
      assert buf[..len] == buf[..2] + AsciiBytes("read") + buf[|HEAD| - 3..len];
      Split(if ValidUtf8(buf[..2]) then buf[..2] else [], buf[|HEAD| - 3..len])
    else
      Split(if ValidUtf8(buf[..len]) then buf[..len] else PLACEHOLDER, [])
  }

  /**
    Testing the prefix of the whole buffer rather than of the text `buf[..len]`
    makes no difference: a recognised text is long enough to contain the prefix.
  */
  lemma RecognisedIffTextHasShape(buf: seq<byte>, len: nat)
    requires |buf| == BUF_LEN && 1 <= len <= |buf|
    ensures Recognised(buf, len) <==> HEAD <= buf[..len] && buf[len - 1] == CLOSE
  {
  }

  /**
    The tail is built without a UTF-8 check; it is nevertheless valid UTF-8
    whenever the text is, because it starts after the ASCII bytes `Thread`.
    Both halves are then valid UTF-8, as Rust's `&str` requires.
  */
  lemma {:induction false} HalvesAreUtf8(buf: seq<byte>, len: nat)
    requires |buf| == BUF_LEN && 1 <= len <= |buf|
    requires ValidUtf8(buf[..len])
    ensures ValidUtf8(ConciseThreadId(buf, len).head)
    ensures ValidUtf8(ConciseThreadId(buf, len).tail)
  {
    var r := ConciseThreadId(buf, len);
    if Recognised(buf, len) {
      AsciiIsValid(r.head);
      assert buf[..len][..6] == HEAD[..6];
      assert IsAscii(HEAD[..6]);
      SuffixAfterAsciiIsValid(buf[..len], 6);
      assert buf[..len][6..] == r.tail;
    } else {
      assert r.tail == [];
    }
  }

  /** Decimal digits, as a thread id's number is printed. */
  predicate IsDigits(s: seq<byte>)
  {
    forall i | 0 <= i < |s| :: 0x30 <= s[i] <= 0x39
  }

  /**
    `format_concise_current_threadid`: the formatter writes `text` at the start
    of the buffer, the rest of the buffer keeps what it held, and the result is
    the split of those `|text|` bytes. What the buffer held before does not
    matter: the split is the one of the text over a zeroed buffer, it gives
    the text back, and an unsplit valid text is kept whole.
  */
  function FormatConciseCurrentThreadId(buf: seq<byte>, text: seq<byte>): (r: Split)
    requires |buf| == BUF_LEN && 1 <= |text| <= BUF_LEN
    ensures r == ConciseThreadId(text + seq(BUF_LEN - |text|, _ => 0), |text|)
    ensures r.tail != [] ==> r.head + AsciiBytes("read") + r.tail == text
    ensures r.tail == [] && ValidUtf8(text) ==> r.head == text
  {
    var b := text + buf[|text|..];
    var z := text + seq(BUF_LEN - |text|, _ => 0);
    assert b[..|text|] == text && z[..|text|] == text;
    RecognisedIffTextHasShape(b, |text|);
    RecognisedIffTextHasShape(z, |text|);
    ConciseThreadId(b, |text|)
  }

  /**
    For the text a thread id formats to, `ThreadId(` then its number then `)`,
    the split is `Th` and `Id(` number `)`: both halves are non-empty and valid
    UTF-8, whatever the buffer held before.
  */
  lemma {:induction false} FormattedThreadIdSplits(buf: seq<byte>, digits: seq<byte>)
    requires |buf| == BUF_LEN && digits != [] && IsDigits(digits)
    requires |HEAD| + |digits| + 1 <= BUF_LEN
    ensures var r := FormatConciseCurrentThreadId(buf, HEAD + digits + [CLOSE]);
      && r.head == AsciiBytes("Th")
      && r.tail == AsciiBytes("Id(") + digits + [CLOSE]
      && r.head != [] && r.tail != []
      && ValidUtf8(r.head) && ValidUtf8(r.tail)
  {
    var text := HEAD + digits + [CLOSE];
    var b := text + buf[|text|..];
    assert b[..|text|] == text;
    assert HEAD <= b by {
      assert b[..|HEAD|] == HEAD;
    }
    assert b[|text| - 1] == CLOSE;
    assert Recognised(b, |text|);
    var r := ConciseThreadId(b, |text|);
    assert r.tail == b[6..|text|] == text[6..];
    assert HEAD[6..] == AsciiBytes("Id(");
    assert text[6..] == HEAD[6..] + digits + [CLOSE];
    assert IsAscii(text) by {
      forall i | 0 <= i < |text| ensures text[i] < 0x80 {
        if i < |HEAD| {
          assert text[i] == HEAD[i];
        } else if i < |HEAD| + |digits| {
          assert text[i] == digits[i - |HEAD|];
        }
      }
    }
    AsciiIsValid(text);
    HalvesAreUtf8(b, |text|);
  }
}
