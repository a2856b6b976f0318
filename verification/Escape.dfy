/** The sanitizer of escape.c: a copy of a string, cut to the buffer, is rewritten in
    place so that it can be printed. */
module Escape {

  import opened Common

  const INT_MAX := 0x7fff_ffff

  // ---------------------------------------------------------------------
  // The tables
  // ---------------------------------------------------------------------

  /** UTF_tab: the length that a lead byte announces, or -1. */
  function UtfLen(b: byte): int {
    if b < 0x80 then 1
    else if b < 0xC2 then -1
    else if b < 0xE0 then 2
    else if b < 0xF0 then 3
    else if b < 0xF5 then 4
    else -1
  }

  const AT: byte := 0x40
  const DOT: byte := 0x2E
  const BAR: byte := 0x7C
  const QUERY: byte := 0x3F

  /** ESC_tab: the bar stands for a byte that may stay. */
  function EscTab(b: byte): byte {
    if b == 0 then AT
    else if b < 0x20 || b == 0x7F then DOT
    else if b < 0x80 then BAR
    else QUERY
  }

  /** A control character of ASCII: C0 or DEL. */
  predicate Control(b: byte) { b < 0x20 || b == 0x7F }

  predicate Printable(b: byte) { 0x20 <= b < 0x7F }

  function EscByte(b: byte): byte { if EscTab(b) != BAR then EscTab(b) else b }

  function CtlByte(b: byte): byte { if Control(b) then QUERY else b }

  // ---------------------------------------------------------------------
  // What the two passes do to a string
  // ---------------------------------------------------------------------

  /** esc_all goes on to the first NUL. */
  function EscAll(t: seq<byte>): (r: seq<byte>)
    ensures |r| == |t|
  {
    if t == [] || t[0] == 0 then t else [EscByte(t[0])] + EscAll(t[1..])
  }

  /** The walk of esc_ctl steps from lead byte to lead byte and ends at the first one
      that is none, or whose character is cut off. */
  predicate Steps(t: seq<byte>) { t != [] && 0 < UtfLen(t[0]) <= |t| }

  /** esc_ctl; what the walk cannot step over is left to esc_all. */
  function EscCtl(t: seq<byte>): (r: seq<byte>)
    ensures |r| == |t|
  {
    if Steps(t) then
      var n := UtfLen(t[0]);
      [CtlByte(t[0])] + t[1..n] + EscCtl(t[n..])
    else EscAll(t)
  }

  /** The part that esc_ctl leaves to esc_all. */
  function Rest(t: seq<byte>): seq<byte> {
    if Steps(t) then Rest(t[UtfLen(t[0])..]) else t
  }

  // ---------------------------------------------------------------------
  // In place
  // ---------------------------------------------------------------------

  lemma {:induction false} EscAllAt(t: seq<byte>, i: nat)
    requires i < |t| && forall j :: 0 <= j <= i ==> t[j] != 0
    ensures EscAll(t)[i] == EscByte(t[i])
  {
    if i > 0 {
      EscAllAt(t[1..], i - 1);
    }
  }

  lemma {:induction false} EscAllBeyond(t: seq<byte>, i: nat, k: nat)
    requires i <= k < |t| && t[i] == 0
    ensures EscAll(t)[k] == t[k]
  {
    if i > 0 && t[0] != 0 {
      EscAllBeyond(t[1..], i - 1, k - 1);
    }
  }

  method EscAllInPlace(buf: array<byte>, off: nat, len: nat)
    requires off + len < buf.Length && buf[off + len] == 0
    modifies buf
    ensures buf[off..off + len] == EscAll(old(buf[off..off + len]))
    ensures forall k :: 0 <= k < buf.Length && !(off <= k < off + len) ==> buf[k] == old(buf[k])
  {
    ghost var t := buf[off..off + len];
    var p := off;
    while buf[p] != 0
      invariant off <= p <= off + len
      invariant forall k :: off <= k < p ==> t[k - off] != 0 && buf[k] == EscByte(t[k - off])
      invariant forall k :: 0 <= k < buf.Length && !(off <= k < p) ==> buf[k] == old(buf[k])
      decreases off + len - p
    {
      assert t[p - off] == buf[p];
      var c := EscTab(buf[p]);
      if c != BAR {
        buf[p] := c;
      }
      p := p + 1;
    }
    forall k | 0 <= k < len ensures buf[off..off + len][k] == EscAll(t)[k] {
      if k < p - off {
        EscAllAt(t, k);
      } else {
        assert p < off + len ==> t[p - off] == 0;
        EscAllBeyond(t, p - off, k);
      }
    }
  }

  /** One step of the walk on what is done and what is to come. */
  lemma StepOver(walked: seq<byte>, rest: seq<byte>)
    requires Steps(rest)
    ensures var n := UtfLen(rest[0]);
      && (walked + rest)[|walked| := CtlByte(rest[0])] == walked + ([CtlByte(rest[0])] + rest[1..n]) + rest[n..]
      && walked + EscCtl(rest) == walked + ([CtlByte(rest[0])] + rest[1..n]) + EscCtl(rest[n..])
  {
    EscCtlStep(rest);
    hide EscCtl, CtlByte;
    var n := UtfLen(rest[0]);
    var step := [CtlByte(rest[0])] + rest[1..n];
    assert rest[0 := CtlByte(rest[0])] == step + rest[n..];
    assert (walked + rest)[|walked| := CtlByte(rest[0])] == walked + rest[0 := CtlByte(rest[0])];
    assert walked + (step + rest[n..]) == walked + step + rest[n..];
    assert walked + (step + EscCtl(rest[n..])) == walked + step + EscCtl(rest[n..]);
  }

  lemma StepsIf(t: seq<byte>)
    requires t != []
    ensures Steps(t) <==> 0 <= UtfLen(t[0]) <= |t|
    ensures UtfLen(t[0]) != 0
  {}

  method ControlAt(buf: array<byte>, off: nat, i: nat, len: nat)
    requires i < len && off + len < buf.Length
    modifies buf
    ensures buf[off..off + len] == old(buf[off..off + len])[i := CtlByte(old(buf[off + i]))]
    ensures forall k :: 0 <= k < buf.Length && k != off + i ==> buf[k] == old(buf[k])
  {
    if buf[off + i] < 0x20 || buf[off + i] == 0x7f {
      buf[off + i] := QUERY;
    }
  }

  /** Where the walk ends early, the remainder is left to esc_all. */
  method GiveUp(buf: array<byte>, off: nat, i: nat, len: nat, ghost walked: seq<byte>, ghost rest: seq<byte>)
    requires i <= len && off + len < buf.Length && buf[off + len] == 0
    requires |walked| == i && buf[off..off + len] == walked + rest
    modifies buf
    ensures buf[off..off + len] == walked + EscAll(rest)
    ensures forall k :: 0 <= k < buf.Length && !(off <= k < off + len) ==> buf[k] == old(buf[k])
  {
    hide EscAll;
    assert (walked + rest)[..i] == walked && (walked + rest)[i..] == rest;
    assert buf[off..off + len][..i] == buf[off..off + i];
    assert buf[off..off + len][i..] == buf[off + i..off + len];
    EscAllInPlace(buf, off + i, len - i);
    assert buf[off..off + i] == walked;
    assert buf[off..off + len] == buf[off..off + i] + buf[off + i..off + len];
  }

  method EscCtlInPlace(buf: array<byte>, off: nat, len: nat)
    requires off + len < buf.Length && buf[off + len] == 0
    modifies buf
    ensures buf[off..off + len] == EscCtl(old(buf[off..off + len]))
    ensures forall k :: 0 <= k < buf.Length && !(off <= k < off + len) ==> buf[k] == old(buf[k])
  {
    hide EscCtl, EscAll, CtlByte, UtfLen, Steps;
    ghost var t, walked, rest := buf[off..off + len], [], buf[off..off + len];
    var str, i := off, 0;
    while i < len
      invariant 0 <= i <= len && str == off + i && |walked| == i
      invariant buf[off..off + len] == walked + rest
      invariant EscCtl(t) == walked + EscCtl(rest)
      invariant forall k :: 0 <= k < buf.Length && !(off <= k < off + len) ==> buf[k] == old(buf[k])
    {
      assert buf[str] == buf[off..off + len][i] == rest[0];
      var n := UtfLen(buf[str]);
      StepsIf(rest);
      if n < 0 || i + n > len {
        EscCtlStep(rest);
        GiveUp(buf, off, i, len, walked, rest);
        return;
      }
      StepOver(walked, rest);
      ControlAt(buf, off, i, len);
      walked, rest := walked + ([CtlByte(rest[0])] + rest[1..n]), rest[n..];
      str := str + n;
      i := i + n;
    }
    EscCtlStep(rest);
  }

  lemma EscCtlStep(t: seq<byte>)
    ensures t == [] ==> EscCtl(t) == []
    ensures Steps(t) ==> EscCtl(t) == [CtlByte(t[0])] + t[1..UtfLen(t[0])] + EscCtl(t[UtfLen(t[0])..])
    ensures !Steps(t) ==> EscCtl(t) == EscAll(t)
  {}

  /** What escape_str leaves of a source string in a buffer of the given size. */
  function Escaped(src: seq<byte>, bufsize: int, utf8: bool): seq<byte> {
    if bufsize <= 0 || bufsize >= INT_MAX || |src| > INT_MAX then []
    else
      var t := if |src| < bufsize then src else src[..bufsize - 1];
      if utf8 then EscCtl(t) else EscAll(t)
  }

  /** escape_str: a C string goes into the buffer at off, cut to its size and
      NUL-terminated; utf8 says what the locale's codeset is.  Printing more than
      INT_MAX bytes fails. */
  method EscapeStr(dst: array<byte>, off: nat, src: seq<byte>, bufsize: int, utf8: bool) returns (r: nat)
    requires 0 !in src && (bufsize > 0 ==> off + bufsize <= dst.Length)
    modifies dst
    ensures r == |Escaped(src, bufsize, utf8)| && (bufsize > 0 ==> r < bufsize)
    ensures bufsize > 0 ==> dst[off..off + r] == Escaped(src, bufsize, utf8) && dst[off + r] == 0
    ensures 1 <= bufsize < INT_MAX && |src| <= INT_MAX && !utf8 ==>
              AllEscaped(if |src| < bufsize then src else src[..bufsize - 1], dst[off..off + r])
    ensures |src| < bufsize < INT_MAX && (forall i :: 0 <= i < |src| ==> 0x20 <= src[i] < 0x7F) ==>
              dst[off..off + r] == src
    ensures forall k :: 0 <= k < dst.Length && !(off <= k < off + bufsize) ==> dst[k] == old(dst[k])
  {
    hide EscCtl, EscAll, AllEscaped, ControlsEscaped, WellFormed;
    if bufsize <= 0 {
      return 0;
    }
    if bufsize < INT_MAX && |src| <= INT_MAX {
      EscapedBytes(src, bufsize);
    }
    dst[off] := 0;
    if bufsize >= INT_MAX || |src| > INT_MAX {
      assert dst[off..off + 0] == [];
      return 0;
    }
    var n := |src|;
    if n >= bufsize {
      n := bufsize - 1;
    }
    forall k | 0 <= k < n {
      dst[off + k] := src[k];
    }
    dst[off + n] := 0;
    assert dst[off..off + n] == src[..n] == if |src| < bufsize then src else src[..bufsize - 1];
    if utf8 {
      EscCtlInPlace(dst, off, n);
    } else {
      EscAllInPlace(dst, off, n);
    }
    r := n;
  }

  /** The visible parts around an escaped command name. */
  function Command(cmd: seq<byte>, bytes: int, brackets: bool, defunct: bool, utf8: bool): seq<byte> {
    var overhead := (if brackets then 2 else 0) + (if defunct then 10 else 0);
    if overhead + 1 >= bytes then []
    else
      (if brackets then [0x5B] else []) + Escaped(cmd, bytes - overhead, utf8)
      + (if brackets then [0x5D] else []) + (if defunct then DEFUNCT else [])
  }

  /** " <defunct>" */
  const DEFUNCT: seq<byte> := [0x20, 0x3C, 0x64, 0x65, 0x66, 0x75, 0x6E, 0x63, 0x74, 0x3E]

  /** escape_command: what it writes never needs more than the bytes it was given. */
  method EscapeCommand(outbuf: array<byte>, cmd: seq<byte>, zombie: bool, bytes: int, brackets: bool, defunctFlag: bool,
                       utf8: bool)
    returns (end: nat)
    requires 0 !in cmd && 0 < outbuf.Length && bytes <= outbuf.Length
    modifies outbuf
    ensures end < outbuf.Length && (bytes > 0 ==> end < bytes) && outbuf[end] == 0
    ensures outbuf[..end] == Command(cmd, bytes, brackets, defunctFlag && zombie, utf8)
  {
    hide EscCtl, EscAll, Escaped;
    var defunct := defunctFlag && zombie;
    var overhead := 0;
    if brackets {
      overhead := overhead + 2;
    }
    if defunct {
      overhead := overhead + 10;
    }
    if overhead + 1 >= bytes {
      outbuf[0] := 0;
      return 0;
    }
    end := Append(outbuf, 0, if brackets then [0x5B] else []);
    ghost var open := outbuf[..end];
    var n := EscapeStr(outbuf, end, cmd, bytes - overhead, utf8);
    assert outbuf[..end + n] == open + Escaped(cmd, bytes - overhead, utf8);
    end := Close(outbuf, end + n, brackets, defunct);
  }

  /** The marks behind the name, and the NUL. */
  method Close(outbuf: array<byte>, start: nat, brackets: bool, defunct: bool) returns (end: nat)
    requires start + (if brackets then 1 else 0) + (if defunct then 10 else 0) < outbuf.Length
    modifies outbuf
    ensures end == start + (if brackets then 1 else 0) + (if defunct then 10 else 0) && outbuf[end] == 0
    ensures outbuf[..end]
            == old(outbuf[..start]) + (if brackets then [0x5D] else []) + (if defunct then DEFUNCT else [])
  {
    end := Append(outbuf, start, if brackets then [0x5D] else []);
    end := Append(outbuf, end, if defunct then DEFUNCT else []);
    ghost var all := outbuf[..end];
    outbuf[end] := 0;
    assert outbuf[..end] == all;
  }

  method Append(outbuf: array<byte>, end: nat, s: seq<byte>) returns (r: nat)
    requires end + |s| <= outbuf.Length
    modifies outbuf
    ensures r == end + |s| && outbuf[..r] == old(outbuf[..end]) + s
  {
    forall k | 0 <= k < |s| {
      outbuf[end + k] := s[k];
    }
    r := end + |s|;
  }

  // ---------------------------------------------------------------------
  // Well-formed UTF-8: section 4 of RFC 3629
  // ---------------------------------------------------------------------

  predicate Tail(b: byte) { 0x80 <= b <= 0xBF }

  /** The length of the UTF8-char the string starts with, or 0 if it starts with none. */
  function CharLen(t: seq<byte>): (n: nat)
    ensures n <= |t| && n <= 4
  {
    if |t| >= 1 && t[0] <= 0x7F then 1
    else if |t| >= 2 && 0xC2 <= t[0] <= 0xDF && Tail(t[1]) then 2
    else if |t| >= 3 && Tail(t[2])
         && ((t[0] == 0xE0 && 0xA0 <= t[1] <= 0xBF) || (0xE1 <= t[0] <= 0xEC && Tail(t[1]))
             || (t[0] == 0xED && 0x80 <= t[1] <= 0x9F) || (0xEE <= t[0] <= 0xEF && Tail(t[1]))) then 3
    else if |t| >= 4 && Tail(t[2]) && Tail(t[3])
         && ((t[0] == 0xF0 && 0x90 <= t[1] <= 0xBF) || (0xF1 <= t[0] <= 0xF3 && Tail(t[1]))
             || (t[0] == 0xF4 && 0x80 <= t[1] <= 0x8F)) then 4
    else 0
  }

  predicate WellFormed(t: seq<byte>) { t == [] || (CharLen(t) > 0 && WellFormed(t[CharLen(t)..])) }

  predicate NoControls(t: seq<byte>) { forall i :: 0 <= i < |t| ==> !Control(t[i]) }

  /** A string that esc_all went over without meeting a NUL is printable ASCII. */
  lemma {:induction false} EscAllPrints(t: seq<byte>)
    requires 0 !in t
    ensures forall i :: 0 <= i < |t| ==> Printable(EscAll(t)[i])
  {
    forall i | 0 <= i < |t| ensures Printable(EscAll(t)[i]) {
      EscAllAt(t, i);
    }
  }

  lemma {:induction false} AsciiIsWellFormed(t: seq<byte>)
    requires forall i :: 0 <= i < |t| ==> t[i] <= 0x7F
    ensures WellFormed(t)
  {
    if t != [] {
      AsciiIsWellFormed(t[1..]);
    }
  }

  /** The bytes behind its lead byte do not decide where a character ends. */
  lemma LeadDecides(t: seq<byte>)
    requires CharLen(t) > 0
    ensures UtfLen(t[0]) == CharLen(t) && Steps(t)
    ensures forall i :: 1 <= i < CharLen(t) ==> Tail(t[i])
  {}

  /** Whatever follows it, a character stays one; a lead byte keeps its character. */
  lemma CharLenLocal(t: seq<byte>, u: seq<byte>)
    requires CharLen(t) > 0 && |u| >= CharLen(t)
    requires u[0] == t[0] || (CharLen(t) == 1 && u[0] <= 0x7F)
    requires forall i :: 1 <= i < CharLen(t) ==> u[i] == t[i]
    ensures CharLen(u) == CharLen(t)
  {}

  lemma CharThenWellFormed(s: seq<byte>, tail: seq<byte>, rest: seq<byte>)
    requires CharLen(s) > 0 && tail == s[1..CharLen(s)] && WellFormed(rest) && NoControls(rest)
    ensures WellFormed([CtlByte(s[0])] + tail + rest) && NoControls([CtlByte(s[0])] + tail + rest)
  {
    var c, out := CharLen(s), [CtlByte(s[0])] + tail + rest;
    LeadDecides(s);
    assert forall i :: 1 <= i < c ==> out[i] == s[i];
    CharLenLocal(s, out);
    assert out[c..] == rest;
    hide CharLen;
    forall i | 0 <= i < |out| ensures !Control(out[i]) {
      assert i >= c ==> out[i] == rest[i - c];
    }
  }

  /** The law the sanitizer is for: any well-formed string, cut anywhere, comes out
      well-formed and without a control character. */
  lemma {:induction false} CutStaysWellFormed(s: seq<byte>, n: nat)
    requires WellFormed(s) && 0 !in s && n <= |s|
    ensures WellFormed(EscCtl(s[..n])) && NoControls(EscCtl(s[..n]))
  {
    var p := s[..n];
    if n > 0 {
      var c := CharLen(s);
      LeadDecides(s);
      if c <= n {
        assert s[c..][..n - c] == p[c..];
        CutStaysWellFormed(s[c..], n - c);
        EscCtlStep(p);
        CharThenWellFormed(s, p[1..c], EscCtl(p[c..]));
      } else {
        EscCtlStep(p);
        EscAllPrints(p);
        AsciiIsWellFormed(EscAll(p));
      }
    }
  }

  /** For every well-formed C string and every buffer size below INT_MAX; of a string longer
      than INT_MAX nothing is left. */
  lemma EscapeKeepsWellFormed(src: seq<byte>, bufsize: int)
    requires WellFormed(src) && 0 !in src && 1 <= bufsize < INT_MAX
    ensures var r := Escaped(src, bufsize, true);
      && |r| == (if |src| > INT_MAX then 0 else if |src| < bufsize - 1 then |src| else bufsize - 1)
      && WellFormed(r) && NoControls(r)
  {
    hide EscCtl;
    if |src| < bufsize {
      assert src[..|src|] == src;
      CutStaysWellFormed(src, |src|);
    } else if |src| <= INT_MAX {
      CutStaysWellFormed(src, bufsize - 1);
    }
  }

  lemma {:induction false} WellFormedConcat(a: seq<byte>, b: seq<byte>)
    requires WellFormed(a) && WellFormed(b)
    ensures WellFormed(a + b)
  {
    if a == [] {
      assert a + b == b;
    } else {
      var n := CharLen(a);
      CharLenLocal(a, a + b);
      assert (a + b)[n..] == a[n..] + b;
      WellFormedConcat(a[n..], b);
    }
  }

  lemma EscapedIsClean(src: seq<byte>, bufsize: int)
    requires WellFormed(src) && 0 !in src
    ensures Clean(Escaped(src, bufsize, true))
  {
    if 1 <= bufsize < INT_MAX {
      EscapeKeepsWellFormed(src, bufsize);
    }
  }

  predicate Clean(t: seq<byte>) { WellFormed(t) && NoControls(t) }

  lemma CleanConcat(a: seq<byte>, b: seq<byte>)
    requires Clean(a) && Clean(b)
    ensures Clean(a + b)
  {
    WellFormedConcat(a, b);
  }

  lemma AsciiIsClean(t: seq<byte>)
    requires forall i :: 0 <= i < |t| ==> Printable(t[i])
    ensures Clean(t)
  {
    AsciiIsWellFormed(t);
  }

  lemma MarksAreClean()
    ensures Clean([]) && Clean([0x5B]) && Clean([0x5D]) && Clean(DEFUNCT)
  {
    hide Clean;
    AsciiIsClean([]);
    AsciiIsClean([0x5B]);
    AsciiIsClean([0x5D]);
    AsciiIsClean(DEFUNCT);
  }

  /** A command line is well-formed for every size and every choice of marks; the marks
      are whole or absent, and take nothing from a name that fits beside them, except
      that an empty name also needs room for a byte. */
  lemma CommandIsClean(cmd: seq<byte>, bytes: int, brackets: bool, defunct: bool)
    requires WellFormed(cmd) && 0 !in cmd
    ensures var r := Command(cmd, bytes, brackets, defunct, true);
      var marks := (if brackets then 2 else 0) + (if defunct then 10 else 0);
      && Clean(r) && (r != [] ==> marks <= |r| < bytes)
      && (marks + |cmd| < bytes < INT_MAX && marks + 1 < bytes ==> |r| == marks + |cmd|)
  {
    hide WellFormed, NoControls, Escaped, Clean;
    MarksAreClean();
    var marks := (if brackets then 2 else 0) + (if defunct then 10 else 0);
    if marks + 1 < bytes {
      var name := Escaped(cmd, bytes - marks, true);
      EscapedIsClean(cmd, bytes - marks);
      EscapedLength(cmd, bytes - marks);
      var open, close: seq<byte>, tail := if brackets then [0x5B] else [], if brackets then [0x5D] else [],
        if defunct then DEFUNCT else [];
      CleanConcat(open, name);
      CleanConcat(open + name, close);
      CleanConcat(open + name + close, tail);
    }
  }

  lemma EscapedLength(src: seq<byte>, bufsize: int)
    requires bufsize > 0
    ensures |Escaped(src, bufsize, true)| < bufsize
    ensures |src| < bufsize < INT_MAX ==> |Escaped(src, bufsize, true)| == |src|
  {}

  // ---------------------------------------------------------------------
  // Arbitrary bytes
  // ---------------------------------------------------------------------

  lemma {:induction false} EscAllTwice(t: seq<byte>)
    ensures EscAll(EscAll(t)) == EscAll(t)
  {
    if t != [] && t[0] != 0 {
      EscAllTwice(t[1..]);
      assert EscAll(t)[1..] == EscAll(t[1..]);
    }
  }

  /** Over printable bytes esc_ctl changes nothing until the first NUL, which becomes a
      question mark. */
  lemma {:induction false} CtlOverPrinted(t: seq<byte>)
    requires 0 !in t && forall i :: 0 <= i < |t| ==> Printable(t[i])
    ensures EscCtl(t) == t
  {
    if t != [] {
      CtlOverPrinted(t[1..]);
      EscCtlStep(t);
      assert t == [t[0]] + [] + t[1..];
    }
  }

  lemma {:induction false} CtlHitsNul(t: seq<byte>, i: nat)
    requires i < |t| && t[i] == 0 && forall j :: 0 <= j < i ==> Printable(t[j])
    ensures EscCtl(t)[i] == QUERY
  {
    EscCtlStep(t);
    if i > 0 {
      CtlHitsNul(t[1..], i - 1);
      assert EscCtl(t) == [CtlByte(t[0])] + [] + EscCtl(t[1..]);
    }
  }

  lemma {:induction false} PrintsToNul(t: seq<byte>, i: nat)
    requires i < |t| && t[i] == 0 && forall j :: 0 <= j < i ==> t[j] != 0
    ensures EscAll(t)[i] == 0 && forall j :: 0 <= j < i ==> Printable(EscAll(t)[j])
  {
    EscAllBeyond(t, i, i);
    forall j | 0 <= j < i ensures Printable(EscAll(t)[j]) {
      EscAllAt(t, j);
    }
  }

  lemma {:induction false} FirstNul(t: seq<byte>) returns (i: nat)
    requires 0 in t
    ensures i < |t| && t[i] == 0 && forall j :: 0 <= j < i ==> t[j] != 0
  {
    if t[0] == 0 {
      i := 0;
    } else {
      i := FirstNul(t[1..]);
      i := i + 1;
      assert forall j :: 1 <= j < i ==> t[j] == t[1..][j - 1];
    }
  }

  /** Sanitizing twice is sanitizing once exactly when esc_all was not stopped by a NUL
      inside the string.  A C string has none, so there it always is. */
  lemma {:induction false} CtlTwice(t: seq<byte>)
    ensures EscCtl(EscCtl(t)) == EscCtl(t) <==> 0 !in Rest(t)
  {
    EscCtlStep(t);
    if Steps(t) {
      var n := UtfLen(t[0]);
      var r := EscCtl(t);
      CtlTwice(t[n..]);
      assert r[0] == CtlByte(t[0]) && r[1..n] == t[1..n] && r[n..] == EscCtl(t[n..]);
      EscCtlStep(r);
      assert EscCtl(r) == ([CtlByte(t[0])] + t[1..n]) + EscCtl(EscCtl(t[n..]));
      assert r == ([CtlByte(t[0])] + t[1..n]) + EscCtl(t[n..]);
      SamePrefix([CtlByte(t[0])] + t[1..n], EscCtl(EscCtl(t[n..])), EscCtl(t[n..]));
    } else if 0 in t {
      var i := FirstNul(t);
      PrintsToNul(t, i);
      CtlHitsNul(EscAll(t), i);
    } else {
      EscAllPrints(t);
      assert 0 !in EscAll(t);
      CtlOverPrinted(EscAll(t));
    }
  }

  lemma {:induction false} RestIsPart(t: seq<byte>)
    requires 0 !in t
    ensures 0 !in Rest(t)
  {
    if Steps(t) {
      RestIsPart(t[UtfLen(t[0])..]);
    }
  }

  lemma CtlTwiceOnCString(t: seq<byte>)
    requires 0 !in t
    ensures EscCtl(EscCtl(t)) == EscCtl(t)
  {
    RestIsPart(t);
    CtlTwice(t);
  }

  /** The walk trusts the lead byte: what stands behind one is not looked at. */
  predicate NoneHidden(t: seq<byte>) {
    Steps(t) ==> NoControls(t[1..UtfLen(t[0])]) && NoneHidden(t[UtfLen(t[0])..])
  }

  /** Of a C string, a control character survives exactly when it hides where a lead
      byte announced the rest of a character. */
  lemma {:induction false} ControlsSurvive(t: seq<byte>)
    requires 0 !in t
    ensures NoControls(EscCtl(t)) <==> NoneHidden(t)
  {
    EscCtlStep(t);
    if Steps(t) {
      var n := UtfLen(t[0]);
      ControlsSurvive(t[n..]);
      var r := EscCtl(t);
      assert r[0] == CtlByte(t[0]) && r[1..n] == t[1..n] && r[n..] == EscCtl(t[n..]);
      assert NoControls(r) <==> NoControls(r[1..n]) && NoControls(r[n..]) by {
        SplitControls(r, n);
      }
    } else {
      EscAllPrints(t);
    }
  }

  lemma SplitControls(r: seq<byte>, n: nat)
    requires 1 <= n <= |r| && !Control(r[0])
    ensures NoControls(r) <==> NoControls(r[1..n]) && NoControls(r[n..])
  {
    forall i | 0 <= i < |r| ensures r[i] == if i == 0 then r[0] else if i < n then r[1..n][i - 1] else r[n..][i - n] {}
  }

  /** Two bytes that keep their newline. */
  lemma NewlineSurvives()
    ensures EscCtl([0xC2, 0x0A]) == [0xC2, 0x0A]
  {
    EscCtlStep([0xC2, 0x0A]);
    EscCtlStep([]);
    assert [0xC2, 0x0A][2..] == [];
    assert [0xC2, 0x0A][1..2] == [0x0A];
  }

  /** What escape_str left of a C string it leaves alone, in either mode and in a buffer of
      the same size. */
  lemma EscapedTwice(src: seq<byte>, bufsize: int, utf8: bool)
    requires 0 !in src
    ensures Escaped(Escaped(src, bufsize, utf8), bufsize, utf8) == Escaped(src, bufsize, utf8)
  {
    hide EscCtl, EscAll;
    if 0 < bufsize < INT_MAX && |src| <= INT_MAX {
      var t := if |src| < bufsize then src else src[..bufsize - 1];
      assert 0 !in t;
      EscAllTwice(t);
      CtlTwiceOnCString(t);
    }
  }

  // ---------------------------------------------------------------------
  // Byte by byte
  // ---------------------------------------------------------------------

  /** r is t with every control character a dot, every byte beyond ASCII a question mark, and
      every printable character as it was. */
  predicate AllEscaped(t: seq<byte>, r: seq<byte>) {
    |r| == |t| && forall i :: 0 <= i < |t| ==>
      r[i] == if t[i] < 0x20 || t[i] == 0x7F then 0x2E else if t[i] >= 0x80 then 0x3F else t[i]
  }

  /** r is t with every control character a question mark. */
  predicate ControlsEscaped(t: seq<byte>, r: seq<byte>) {
    |r| == |t| && forall i :: 0 <= i < |t| ==> r[i] == if t[i] < 0x20 || t[i] == 0x7F then 0x3F else t[i]
  }

  lemma EscAllBytes(t: seq<byte>)
    requires 0 !in t
    ensures AllEscaped(t, EscAll(t))
  {
    forall i | 0 <= i < |t|
      ensures EscAll(t)[i] == if t[i] < 0x20 || t[i] == 0x7F then 0x2E else if t[i] >= 0x80 then 0x3F else t[i]
    {
      EscAllAt(t, i);
    }
  }

  lemma KeepsCharacter(t: seq<byte>, n: nat)
    requires 2 <= n <= |t| && UtfLen(t[0]) == n
    ensures EscCtl(t) == t[..n] + EscCtl(t[n..])
  {
    EscCtlStep(t);
    hide EscCtl;
    assert [t[0]] + t[1..n] == t[..n];
  }

  lemma GivesUp(t: seq<byte>)
    requires t != [] && 0 !in t && (UtfLen(t[0]) < 0 || UtfLen(t[0]) > |t|)
    ensures AllEscaped(t, EscCtl(t))
  {
    EscCtlStep(t);
    EscAllBytes(t);
  }

  /** esc_ctl by the lead bytes: it keeps the characters they announce and leaves the string
      to esc_all at the first byte that announces none, or more than there is. */
  lemma CtlWalk(t: seq<byte>)
    requires t != [] && 0 !in t
    ensures t[0] < 0x80 ==>
              EscCtl(t) == [if t[0] < 0x20 || t[0] == 0x7F then 0x3F else t[0]] + EscCtl(t[1..])
    ensures 0xC2 <= t[0] <= 0xDF && |t| >= 2 ==> EscCtl(t) == t[..2] + EscCtl(t[2..])
    ensures 0xE0 <= t[0] <= 0xEF && |t| >= 3 ==> EscCtl(t) == t[..3] + EscCtl(t[3..])
    ensures 0xF0 <= t[0] <= 0xF4 && |t| >= 4 ==> EscCtl(t) == t[..4] + EscCtl(t[4..])
    ensures 0x80 <= t[0] <= 0xC1 || t[0] >= 0xF5 ==> AllEscaped(t, EscCtl(t))
    ensures (t[0] >= 0xC2 && |t| == 1) || (t[0] >= 0xE0 && |t| <= 2) || (t[0] >= 0xF0 && |t| <= 3) ==>
              AllEscaped(t, EscCtl(t))
  {
    hide EscCtl, AllEscaped;
    if UtfLen(t[0]) < 0 || UtfLen(t[0]) > |t| {
      GivesUp(t);
    } else if t[0] >= 0x80 {
      KeepsCharacter(t, UtfLen(t[0]));
    } else {
      KeepsAscii(t);
    }
  }

  lemma KeepsAscii(t: seq<byte>)
    requires t != [] && t[0] < 0x80
    ensures EscCtl(t) == [if t[0] < 0x20 || t[0] == 0x7F then 0x3F else t[0]] + EscCtl(t[1..])
  {
    EscCtlStep(t);
    hide EscCtl;
    assert t[1..1] == [];
  }

  /** Of a well-formed string only the control characters change. */
  lemma {:induction false} CtlBytes(s: seq<byte>)
    requires WellFormed(s) && 0 !in s
    ensures ControlsEscaped(s, EscCtl(s))
  {
    if s != [] {
      var c := CharLen(s);
      LeadDecides(s);
      CtlBytes(s[c..]);
      EscCtlStep(s);
      CharBytes(s, c, EscCtl(s[c..]));
    }
  }

  lemma CharBytes(s: seq<byte>, c: nat, rest: seq<byte>)
    requires 1 <= c <= |s| && (forall i :: 1 <= i < c ==> Tail(s[i])) && ControlsEscaped(s[c..], rest)
    ensures ControlsEscaped(s, [if s[0] < 0x20 || s[0] == 0x7F then 0x3F else s[0]] + s[1..c] + rest)
  {
    var r := [if s[0] < 0x20 || s[0] == 0x7F then 0x3F else s[0]] + s[1..c] + rest;
    forall i | c <= i < |s|
      ensures r[i] == if s[i] < 0x20 || s[i] == 0x7F then 0x3F else s[i]
    {
      assert r[i] == rest[i - c] && s[i] == s[c..][i - c];
    }
  }

  /** What escape_str leaves, byte by byte: outside UTF-8 of any string, in UTF-8 of any
      well-formed one that fits; a printable name that fits is left alone in both modes. */
  lemma EscapedBytes(src: seq<byte>, bufsize: int)
    requires 0 !in src && 1 <= bufsize < INT_MAX && |src| <= INT_MAX
    ensures AllEscaped(if |src| < bufsize then src else src[..bufsize - 1], Escaped(src, bufsize, false))
    ensures WellFormed(src) && |src| < bufsize ==> ControlsEscaped(src, Escaped(src, bufsize, true))
    ensures |src| < bufsize && (forall i :: 0 <= i < |src| ==> 0x20 <= src[i] < 0x7F) ==>
              Escaped(src, bufsize, false) == Escaped(src, bufsize, true) == src
  {
    hide EscAll, EscCtl, WellFormed;
    EscAllBytes(if |src| < bufsize then src else src[..bufsize - 1]);
    if forall i :: 0 <= i < |src| ==> 0x20 <= src[i] < 0x7F {
      AsciiIsWellFormed(src);
    }
    if WellFormed(src) {
      CtlBytes(src);
    }
  }

  lemma PrintableStays(src: seq<byte>, bufsize: int)
    requires |src| < bufsize < INT_MAX && forall i :: 0 <= i < |src| ==> 0x20 <= src[i] < 0x7F
    ensures forall utf8 :: Escaped(src, bufsize, utf8) == src
  {
    hide AllEscaped, ControlsEscaped, WellFormed, Escaped;
    EscapedBytes(src, bufsize);
  }

  /** A printable name that fits stands between its marks: [name] <defunct>. */
  lemma CommandReads(cmd: seq<byte>, bytes: int, utf8: bool)
    requires (forall i :: 0 <= i < |cmd| ==> 0x20 <= cmd[i] < 0x7F) && |cmd| + 13 < bytes < INT_MAX
    ensures Command(cmd, bytes, false, false, utf8) == cmd
    ensures Command(cmd, bytes, true, false, utf8) == [0x5B] + cmd + [0x5D]
    ensures Command(cmd, bytes, false, true, utf8)
            == cmd + [0x20, 0x3C, 0x64, 0x65, 0x66, 0x75, 0x6E, 0x63, 0x74, 0x3E]
    ensures Command(cmd, bytes, true, true, utf8)
            == [0x5B] + cmd + [0x5D] + [0x20, 0x3C, 0x64, 0x65, 0x66, 0x75, 0x6E, 0x63, 0x74, 0x3E]
  {
    hide Escaped;
    PrintableStays(cmd, bytes);
    PrintableStays(cmd, bytes - 2);
    PrintableStays(cmd, bytes - 10);
    PrintableStays(cmd, bytes - 12);
  }
}
