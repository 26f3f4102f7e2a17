/**
 How an entry is stored and written, and the notices that report dropped entries
 (src/add_to_log.rs, `format_entry`; src/write_to_file.rs, the backlog notice;
 src/lib.rs, `send_log`). The date itself is formatted by another library.
 */
module Format {
  import opened Bytes
  import opened Messages

  const SPACE: byte := 0x20

  // ---------------------------------------------------------------------------------------------
  // Trimming
  // ---------------------------------------------------------------------------------------------

  /** One whitespace character of Unicode, in UTF-8. */
  predicate IsWhite(c: Bytes) {
    || (|c| == 1 && (0x09 <= c[0] <= 0x0d || c[0] == 0x20))
    || (|c| == 2 && c[0] == 0xc2 && (c[1] == 0x85 || c[1] == 0xa0))
    || (|c| == 3 && c[0] == 0xe1 && c[1] == 0x9a && c[2] == 0x80)
    || (|c| == 3 && c[0] == 0xe2 && c[1] == 0x80 && (0x80 <= c[2] <= 0x8a || c[2] in {0xa8, 0xa9, 0xaf}))
    || (|c| == 3 && c[0] == 0xe2 && c[1] == 0x81 && c[2] == 0x9f)
    || (|c| == 3 && c[0] == 0xe3 && c[1] == 0x80 && c[2] == 0x80)
  }

  /** The UTF-8 encoding of a character of the Basic Multilingual Plane. */
  function Utf8(c: nat): Bytes
    requires c < 0x1_0000
  {
    if c < 0x80 then [c]
    else if c < 0x800 then [0xc0 + c / 0x40, 0x80 + c % 0x40]
    else [0xe0 + c / 0x1000, 0x80 + c / 0x40 % 0x40, 0x80 + c % 0x40]
  }

  /** Exactly the characters with the Unicode property White_Space, none of which lies outside that plane. */
  lemma WhiteExactly(c: nat)
    requires c < 0x1_0000
    ensures IsWhite(Utf8(c)) <==>
      || 0x09 <= c <= 0x0d || c == 0x20 || c == 0x85 || c == 0xa0 || c == 0x1680 || 0x2000 <= c <= 0x200a
      || c == 0x2028 || c == 0x2029 || c == 0x202f || c == 0x205f || c == 0x3000
  {
  }

  /** Which byte strings count as one whitespace character, of at most three bytes. */
  type White = Bytes -> bool

  /** The length of the whitespace character at the front, if there is one. */
  function WhiteAtFront(white: White, s: Bytes): (n: nat)
    ensures n <= |s|
  {
    if |s| >= 1 && white(s[..1]) then 1
    else if |s| >= 2 && white(s[..2]) then 2
    else if |s| >= 3 && white(s[..3]) then 3
    else 0
  }

  function WhiteAtEnd(white: White, s: Bytes): (n: nat)
    ensures n <= |s|
  {
    if |s| >= 1 && white(s[|s| - 1..]) then 1
    else if |s| >= 2 && white(s[|s| - 2..]) then 2
    else if |s| >= 3 && white(s[|s| - 3..]) then 3
    else 0
  }

  function TrimStart(white: White, s: Bytes): Bytes
    decreases |s|
  {
    var n := WhiteAtFront(white, s);
    if n == 0 then s else TrimStart(white, s[n..])
  }

  function TrimEnd(white: White, s: Bytes): Bytes
    decreases |s|
  {
    var n := WhiteAtEnd(white, s);
    if n == 0 then s else TrimEnd(white, s[..|s| - n])
  }

  function Trim(white: White, s: Bytes): Bytes {
    TrimEnd(white, TrimStart(white, s))
  }

  ghost predicate AllWhite(white: White, s: Bytes)
    decreases |s|
  {
    s == [] || exists n :: 0 < n <= |s| && white(s[..n]) && AllWhite(white, s[n..])
  }

  lemma {:induction false} AllWhiteJoin(white: White, a: Bytes, b: Bytes)
    requires AllWhite(white, a) && AllWhite(white, b)
    ensures AllWhite(white, a + b)
    decreases |a|
  {
    if a == [] {
      assert a + b == b;
    } else {
      var n :| 0 < n <= |a| && white(a[..n]) && AllWhite(white, a[n..]);
      AllWhiteJoin(white, a[n..], b);
      assert (a + b)[..n] == a[..n] && (a + b)[n..] == a[n..] + b;
    }
  }

  lemma WhiteIsAllWhite(white: White, c: Bytes)
    requires white(c)
    ensures AllWhite(white, c)
  {
    if c != [] {
      assert c[..|c|] == c && c[|c|..] == [];
    }
  }

  lemma Glued(a: Bytes, b: Bytes, c: Bytes)
    ensures a + (b + c) == a + b + c
  {
  }

  lemma FrontIsWhite(white: White, s: Bytes)
    requires WhiteAtFront(white, s) > 0
    ensures var n := WhiteAtFront(white, s); white(s[..n]) && s == s[..n] + s[n..]
  {
  }

  lemma EndIsWhite(white: White, s: Bytes)
    requires WhiteAtEnd(white, s) > 0
    ensures var k := |s| - WhiteAtEnd(white, s); white(s[k..]) && s == s[..k] + s[k..]
  {
  }

  lemma {:induction false} TrimStartCuts(white: White, s: Bytes) returns (front: Bytes)
    ensures s == front + TrimStart(white, s) && AllWhite(white, front) && WhiteAtFront(white, TrimStart(white, s)) == 0
    decreases |s|
  {
    var n := WhiteAtFront(white, s);
    if n == 0 {
      front := [];
    } else {
      var more := TrimStartCuts(white, s[n..]);
      front := s[..n] + more;
      FrontIsWhite(white, s);
      WhiteIsAllWhite(white, s[..n]);
      AllWhiteJoin(white, s[..n], more);
      Glued(s[..n], more, TrimStart(white, s[n..]));
    }
  }

  lemma {:induction false} TrimEndCuts(white: White, s: Bytes) returns (back: Bytes)
    ensures s == TrimEnd(white, s) + back && AllWhite(white, back) && WhiteAtEnd(white, TrimEnd(white, s)) == 0
    decreases |s|
  {
    var n := WhiteAtEnd(white, s);
    if n == 0 {
      back := [];
    } else {
      var k := |s| - n;
      var more := TrimEndCuts(white, s[..k]);
      back := more + s[k..];
      EndIsWhite(white, s);
      WhiteIsAllWhite(white, s[k..]);
      AllWhiteJoin(white, more, s[k..]);
      Glued(TrimEnd(white, s[..k]), more, s[k..]);
    }
  }

  lemma FrontStaysSolid(white: White, t: Bytes, u: Bytes)
    requires WhiteAtFront(white, t) == 0 && u <= t
    ensures WhiteAtFront(white, u) == 0
  {
    assert |u| >= 1 ==> t[..1] == u[..1];
    assert |u| >= 2 ==> t[..2] == u[..2];
    assert |u| >= 3 ==> t[..3] == u[..3];
  }

  /** Trimming takes whitespace from both ends, all of it, and nothing else. */
  lemma TrimTakesWhite(white: White, s: Bytes) returns (front: Bytes, back: Bytes)
    ensures s == front + Trim(white, s) + back && AllWhite(white, front) && AllWhite(white, back)
    ensures WhiteAtFront(white, Trim(white, s)) == 0 && WhiteAtEnd(white, Trim(white, s)) == 0
  {
    var t := TrimStart(white, s);
    front := TrimStartCuts(white, s);
    back := TrimEndCuts(white, t);
    FrontStaysSolid(white, t, Trim(white, s));
    Glued(front, Trim(white, s), back);
  }

  // ---------------------------------------------------------------------------------------------
  // Entries
  // ---------------------------------------------------------------------------------------------

  /** The formatted date that stands in front of an entry. */
  type Stamp = (LogType, nat) -> Bytes

  function FormatEntry(stamp: Stamp, layout: Layout, date: nat, text: Bytes): Bytes {
    if layout.logType.NoSplit? || layout.noDate then Trim(IsWhite, text)
    else stamp(layout.logType, date) + [SPACE] + text
  }

  // ---------------------------------------------------------------------------------------------
  // Notices
  // ---------------------------------------------------------------------------------------------

  /** The bytes of a text that is all ASCII. */
  function Ascii(s: string): (r: Bytes)
    ensures |r| == |s|
  {
    seq(|s|, i requires 0 <= i < |s| => if s[i] as int < 0x80 then s[i] as int else 0x3f)
  }

  lemma MagicSays()
    ensures MAGIC == Ascii("OPLog 1.0\n")
  {
    assert Ascii("OPLog 1.0\n")[0] == 0x4f;
  }

  function Decimal(n: nat): Bytes {
    if n < 10 then [0x30 + n] else Decimal(n / 10) + [0x30 + n % 10]
  }

  /** What decimal digits say. */
  function Value(digits: Bytes): int {
    if digits == [] then 0 else 10 * Value(digits[..|digits| - 1]) + (digits[|digits| - 1] as int - 0x30)
  }

  lemma {:induction false} DecimalSays(n: nat)
    ensures Value(Decimal(n)) == n && Decimal(n) != []
    ensures forall i :: 0 <= i < |Decimal(n)| ==> 0x30 <= Decimal(n)[i] <= 0x39
  {
    if n < 10 {
      assert Decimal(n)[..0] == [];
    } else {
      DecimalSays(n / 10);
      assert Decimal(n)[..|Decimal(n)| - 1] == Decimal(n / 10);
    }
  }

  /** The notice of entries dropped from a file's queue. */
  function BacklogText(count: nat): Bytes {
    Ascii("[op-log] dropped ") + Decimal(count) + Ascii(" log entries (write backlog)")
  }

  /** The notice of entries refused by a full channel. */
  function ChannelText(count: nat): Bytes {
    Ascii("[op-log] dropped ") + Decimal(count) + Ascii(" log entries (channel full)")
  }

  /** A text that starts and ends in visible ASCII is trimmed to itself. */
  lemma SolidText(s: Bytes)
    requires |s| >= 3 && 0x20 < s[0] < 0x80 && 0x20 < s[|s| - 1] < 0x80
    requires s[|s| - 2] < 0x80 && s[|s| - 3] < 0x80
    ensures Trim(IsWhite, s) == s
  {
    assert s[..1] == [s[0]] && s[..2] == [s[0], s[1]] && s[..3] == [s[0], s[1], s[2]];
    assert WhiteAtFront(IsWhite, s) == 0;
    var n := |s|;
    assert s[n - 1..] == [s[n - 1]] && s[n - 2..] == [s[n - 2], s[n - 1]];
    assert s[n - 3..] == [s[n - 3], s[n - 2], s[n - 1]];
    assert WhiteAtEnd(IsWhite, s) == 0;
  }

  /** The backlog notice as it stands in the file. */
  lemma BacklogEntry(stamp: Stamp, layout: Layout, now: nat, count: nat)
    ensures var text :=
        Ascii("[op-log] dropped ") + Decimal(count) + Ascii(" log entries (write backlog)");
      FormatEntry(stamp, layout, now, BacklogText(count)) ==
        if layout.logType.NoSplit? || layout.noDate then text else stamp(layout.logType, now) + [0x20] + text
  {
    var text := BacklogText(count);
    var tail := Ascii(" log entries (write backlog)");
    assert text[0] == Ascii("[op-log] dropped ")[0];
    assert text[|text| - 1] == tail[|tail| - 1] && text[|text| - 2] == tail[|tail| - 2];
    assert text[|text| - 3] == tail[|tail| - 3];
    SolidText(text);
  }
}
