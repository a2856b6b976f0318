/** file2strvec of readproc.c: a file becomes one block that holds its bytes, some
    alignment, and an array of pointers to the strings among the bytes.  A first
    pass counts the pointers it makes room for, a second one fills them in. */
module FileVec {

  import opened Common

  const INT_MAX := 0x7fff_ffff
  const PTR := 8          // sizeof(char*)
  const ARG_LEN := 64
  const CHUNK := 2047     // bytes asked of every read
  /** Files of this size or more are cut off. */
  const LIMIT := INT_MAX / (ARG_LEN + PTR) * ARG_LEN

  /** What read(2) delivers; once the list is used up the file is at its end. */
  datatype ReadResult = Data(bytes: seq<byte>) | Fail

  // ---------------------------------------------------------------------
  // Reading
  // ---------------------------------------------------------------------

  predicate Short(r: ReadResult) { r.Data? && |r.bytes| < CHUNK }

  /** The bytes up to the first short read, which is taken for the end of the file. */
  function Stream(rs: seq<ReadResult>): seq<byte> {
    if rs == [] || rs[0].Fail? then []
    else rs[0].bytes + if Short(rs[0]) then [] else Stream(rs[1..])
  }

  function AllBytes(rs: seq<ReadResult>): seq<byte> {
    if rs == [] then [] else (if rs[0].Data? then rs[0].bytes else []) + AllBytes(rs[1..])
  }

  /** No data comes behind a short read. */
  predicate ShortReadsEnd(rs: seq<ReadResult>) {
    forall i, j :: 0 <= i < j < |rs| && Short(rs[i]) && rs[j].Data? ==> rs[j].bytes == []
  }

  lemma {:induction false} NoBytes(rs: seq<ReadResult>)
    ensures AllBytes(rs) == [] <==> forall j :: 0 <= j < |rs| && rs[j].Data? ==> rs[j].bytes == []
  {
    if rs != [] {
      NoBytes(rs[1..]);
      assert forall j :: 1 <= j < |rs| ==> rs[1..][j - 1] == rs[j];
    }
  }

  /** What is read is the whole file exactly when no data comes behind a short read. */
  lemma {:induction false} StreamIsFile(rs: seq<ReadResult>)
    requires forall i :: 0 <= i < |rs| ==> rs[i].Data?
    ensures Stream(rs) == AllBytes(rs) <==> ShortReadsEnd(rs)
  {
    if rs != [] {
      var rest := rs[1..];
      assert forall j :: 1 <= j < |rs| ==> rest[j - 1] == rs[j];
      StreamIsFile(rest);
      NoBytes(rest);
      ShortFirst(rs);
      if Short(rs[0]) {
        assert Stream(rs) == rs[0].bytes;
      } else {
        assert rs[0].bytes + Stream(rest) == rs[0].bytes + AllBytes(rest) <==> Stream(rest) == AllBytes(rest) by {
          SamePrefix(rs[0].bytes, Stream(rest), AllBytes(rest));
        }
      }
    }
  }

  lemma ShortFirst(rs: seq<ReadResult>)
    requires rs != []
    ensures ShortReadsEnd(rs) <==>
              ShortReadsEnd(rs[1..])
              && (Short(rs[0]) ==> forall j :: 0 <= j < |rs[1..]| && rs[1..][j].Data? ==> rs[1..][j].bytes == [])
  {
    var rest := rs[1..];
    assert forall j :: 1 <= j < |rs| ==> rest[j - 1] == rs[j];
    if !ShortReadsEnd(rs) {
      var i, j :| 0 <= i < j < |rs| && Short(rs[i]) && rs[j].Data? && rs[j].bytes != [];
      assert rest[j - 1] == rs[j];
      if i > 0 {
        assert Short(rest[i - 1]);
      }
    }
  }

  predicate Fails(rs: seq<ReadResult>) {
    rs != [] && (rs[0].Fail? || (!Short(rs[0]) && Fails(rs[1..])))
  }

  function Terminated(s: seq<byte>): seq<byte> {
    if s != [] && s[|s| - 1] == 0 then s else s + [0]
  }

  lemma StreamStep(rs: seq<ReadResult>, i: nat)
    requires i <= |rs|
    ensures i == |rs| ==> Stream(rs[i..]) == [] && !Fails(rs[i..])
    ensures i < |rs| && rs[i].Fail? ==> Stream(rs[i..]) == [] && Fails(rs[i..])
    ensures i < |rs| && Short(rs[i]) ==> Stream(rs[i..]) == rs[i].bytes && !Fails(rs[i..])
    ensures i < |rs| && rs[i].Data? && !Short(rs[i]) ==>
              Stream(rs[i..]) == rs[i].bytes + Stream(rs[i + 1..]) && Fails(rs[i..]) == Fails(rs[i + 1..])
  {
    if i < |rs| {
      assert rs[i..][1..] == rs[i + 1..];
    }
  }

  /** A file is cut off at the last chunk boundary below the limit. */
  ghost predicate CutOff(s: seq<byte>, r: seq<byte>) {
    exists n: nat :: LIMIT - CHUNK <= n < LIMIT && n <= |s| && r == Terminated(s[..n])
  }

  /** The last bytes are appended, with a NUL unless they end in one already. */
  method AppendLast(rbuf: seq<byte>, chunk: seq<byte>) returns (r: seq<byte>)
    requires rbuf + chunk != []
    ensures r == Terminated(rbuf + chunk)
  {
    var buf := chunk;
    if if buf != [] then buf[|buf| - 1] != 0 else rbuf[|rbuf| - 1] != 0 {
      buf := buf + [0];
    }
    r := rbuf + buf;
    assert r == rbuf + chunk || r == rbuf + chunk + [0];
  }

  /** Reads the whole file, NUL-terminated; nothing at all, and an error, give None. */
  method Slurp(rs: seq<ReadResult>) returns (r: Option<seq<byte>>)
    requires forall i :: 0 <= i < |rs| && rs[i].Data? ==> |rs[i].bytes| <= CHUNK
    ensures |Stream(rs)| < LIMIT ==>
              r == if Fails(rs) || Stream(rs) == [] then None else Some(Terminated(Stream(rs)))
    ensures |Stream(rs)| >= LIMIT ==> r.Some? && CutOff(Stream(rs), r.value)
  {
    hide Stream, Fails, Terminated;
    var rbuf: seq<byte> := [];
    var i := 0;
    while true
      invariant 0 <= i <= |rs|
      invariant Stream(rs) == rbuf + Stream(rs[i..]) && Fails(rs) == Fails(rs[i..])
      invariant |rbuf| < LIMIT
      decreases |rs| - i
    {
      StreamStep(rs, i);
      var res := if i < |rs| then rs[i] else Data([]);
      if res.Fail? {
        return None;
      }
      var buf := res.bytes;
      if buf == [] && rbuf == [] {
        return None;
      }
      if |rbuf| >= LIMIT - |buf| {
        var cut := AppendLast(rbuf, []);
        assert Stream(rs)[..|rbuf|] == rbuf == rbuf + [];
        return Some(cut);
      }
      if |buf| < CHUNK {
        var whole := AppendLast(rbuf, buf);
        return Some(whole);
      }
      assert rbuf + (buf + Stream(rs[i + 1..])) == rbuf + buf + Stream(rs[i + 1..]);
      rbuf := rbuf + buf;
      i := i + 1;
    }
  }

  // ---------------------------------------------------------------------
  // Separators and pieces
  // ---------------------------------------------------------------------

  predicate Sep(b: byte) { b == 0 || b == 10 }

  function Start(s: seq<nat>, j: nat): nat
    requires j <= |s|
  {
    if j == 0 then 0 else s[j - 1] + 1
  }

  /** The positions of the separators among the first n bytes. */
  function Seps(d: seq<byte>, n: nat): (s: seq<nat>)
    requires n <= |d|
    ensures |s| <= n && Start(s, |s|) <= n
  {
    if n == 0 then []
    else Seps(d, n - 1) + if Sep(d[n - 1]) then [n - 1] else []
  }

  /** The strings among the first n bytes: each is ended by a separator. */
  function Pieces(d: seq<byte>, n: nat): (ps: seq<seq<byte>>)
    requires n <= |d|
    ensures |ps| == |Seps(d, n)|
  {
    if n == 0 then []
    else
      var s := Seps(d, n - 1);
      Pieces(d, n - 1) + if Sep(d[n - 1]) then [d[Start(s, |s|)..n - 1]] else []
  }

  lemma {:induction false} PieceAt(d: seq<byte>, n: nat, j: nat)
    requires n <= |d| && j < |Seps(d, n)|
    ensures Start(Seps(d, n), j) <= Seps(d, n)[j] < n && Sep(d[Seps(d, n)[j]])
    ensures Pieces(d, n)[j] == d[Start(Seps(d, n), j)..Seps(d, n)[j]]
  {
    if j < |Seps(d, n - 1)| {
      PieceAt(d, n - 1, j);
    }
  }

  /** Between two separators, and behind the last one, there is none. */
  lemma {:induction false} NoSepBetween(d: seq<byte>, n: nat, j: nat, p: nat)
    requires n <= |d| && j <= |Seps(d, n)|
    requires Start(Seps(d, n), j) <= p < n && (j < |Seps(d, n)| ==> p < Seps(d, n)[j])
    ensures !Sep(d[p])
  {
    if p < n - 1 {
      NoSepBetween(d, n - 1, j, p);
    } else if j < |Seps(d, n)| {
      PieceAt(d, n, j);
    }
  }

  lemma {:induction false} SepsPrefix(d: seq<byte>, m: nat, n: nat)
    requires m <= n <= |d|
    ensures Seps(d, m) <= Seps(d, n)
  {
    if m < n {
      SepsPrefix(d, m, n - 1);
    }
  }

  /** Pieces contain no separator, and joined again by NULs they are the data. */
  function Join(ps: seq<seq<byte>>): seq<byte> {
    if ps == [] then [] else Join(ps[..|ps| - 1]) + ps[|ps| - 1] + [0]
  }

  /** The first n bytes with every newline turned into a NUL. */
  function Zeroed(d: seq<byte>, n: nat): seq<byte> {
    seq(|d|, i requires 0 <= i < |d| => if i < n && d[i] == 10 then 0 else d[i])
  }

  lemma PieceIsClean(d: seq<byte>, n: nat, j: nat)
    requires n <= |d| && j < |Seps(d, n)|
    ensures forall b :: b in Pieces(d, n)[j] ==> !Sep(b)
  {
    PieceAt(d, n, j);
    forall p | Start(Seps(d, n), j) <= p < Seps(d, n)[j] ensures !Sep(d[p]) {
      NoSepBetween(d, n, j, p);
    }
  }

  lemma JoinSnoc(ps: seq<seq<byte>>, p: seq<byte>)
    ensures Join(ps + [p]) == Join(ps) + p + [0]
  {
    assert (ps + [p])[..|ps|] == ps;
  }

  lemma {:induction false} PiecesJoin(d: seq<byte>, n: nat)
    requires n <= |d| && (n == 0 || Sep(d[n - 1]))
    ensures Join(Pieces(d, n)) == Zeroed(d, n)[..n]
    decreases n
  {
    if n > 0 {
      var s := Seps(d, n - 1);
      var m := Start(s, |s|);
      LastSep(d, n - 1);
      PiecesJoin(d, m);
      assert Pieces(d, n) == Pieces(d, m) + [d[m..n - 1]];
      hide Seps, Pieces, Zeroed, Join;
      ZeroedStep(d, m, n);
      JoinSnoc(Pieces(d, m), d[m..n - 1]);
    }
  }

  lemma ZeroedStep(d: seq<byte>, m: nat, n: nat)
    requires m < n <= |d| && Sep(d[n - 1])
    requires m == Start(Seps(d, n - 1), |Seps(d, n - 1)|)
    ensures Zeroed(d, n)[..n] == Zeroed(d, m)[..m] + d[m..n - 1] + [0]
  {
    forall p | m <= p < n - 1 ensures !Sep(d[p]) {
      NoSepBetween(d, n - 1, |Seps(d, n - 1)|, p);
    }
  }

  /** All separators among the first n bytes are in front of the end of the last piece. */
  lemma {:induction false} LastSep(d: seq<byte>, n: nat)
    requires n <= |d|
    ensures var m := Start(Seps(d, n), |Seps(d, n)|);
      Seps(d, m) == Seps(d, n) && Pieces(d, m) == Pieces(d, n) && (m == 0 || Sep(d[m - 1]))
  {
    if n > 0 && !Sep(d[n - 1]) {
      LastSep(d, n - 1);
      assert Seps(d, n) == Seps(d, n - 1) && Pieces(d, n) == Pieces(d, n - 1);
    } else if n > 0 {
      assert Start(Seps(d, n), |Seps(d, n)|) == n;
    }
  }

  // ---------------------------------------------------------------------
  // The two passes
  // ---------------------------------------------------------------------

  /** Bytes between the data and the pointers. */
  function Align(tot: nat): nat { (PTR - 1) - (tot + PTR - 1) % PTR }

  lemma AlignAligns(tot: nat)
    ensures 0 <= Align(tot) < PTR && (tot + Align(tot)) % PTR == 0
  {}

  /** What the block size, an int, leaves for the pointers. */
  function Room(tot: nat): int { INT_MAX - (tot + PTR + Align(tot)) }

  /** The number of pointers the first pass can make room for. */
  function MaxPointers(tot: nat): nat
    requires tot <= LIMIT
  {
    (Room(tot) - 1) / PTR
  }

  /** Every file the reader accepts gets room for one pointer at least, and up to
      128 MiB for as many as it can have strings. */
  lemma RoomForPointers(tot: nat)
    requires 0 < tot <= LIMIT
    ensures MaxPointers(tot) >= 1
    ensures tot <= 0x800_0000 ==> MaxPointers(tot) >= tot
  {}

  /** First pass: the bytes to reserve for pointers, including the NULL.  Newlines
      become NULs on the way; stop is where the block would grow too large. */
  method CountPointers(rbuf: array<byte>) returns (c: nat, ghost stop: nat)
    requires 0 < rbuf.Length <= LIMIT
    modifies rbuf
    ensures stop <= rbuf.Length && rbuf[..] == Zeroed(old(rbuf[..]), stop)
    ensures c == PTR * (|Seps(old(rbuf[..]), stop)| + 1)
    ensures |Seps(old(rbuf[..]), stop)| <= MaxPointers(rbuf.Length)
    ensures stop < rbuf.Length ==> Sep(old(rbuf[stop])) && |Seps(old(rbuf[..]), stop)| == MaxPointers(rbuf.Length)
  {
    ghost var d := rbuf[..];
    var tot := rbuf.Length;
    c := PTR;
    var p := 0;
    while p < tot
      invariant 0 <= p <= tot && rbuf[..] == Zeroed(d, p)
      invariant c == PTR * (|Seps(d, p)| + 1) && |Seps(d, p)| <= MaxPointers(tot)
    {
      assert rbuf[p] == d[p] && d[..p + 1][..p] == d[..p];
      if rbuf[p] == 0 || rbuf[p] == 10 {
        if c >= Room(tot) {
          return c, p;
        }
        c := c + PTR;
      }
      if rbuf[p] == 10 {
        rbuf[p] := 0;
      }
      p := p + 1;
      assert rbuf[..] == Zeroed(d, p);
    }
    stop := p;
  }

  /** Second pass: a pointer for every NUL, as long as room is left for the NULL. */
  method FillPointers(rbuf: array<byte>, room: nat, ghost d: seq<byte>, ghost stop: nat) returns (q: seq<nat>)
    requires |d| == rbuf.Length && stop <= |d| && rbuf[..] == Zeroed(d, stop)
    requires room == PTR * (|Seps(d, stop)| + 1)
    ensures |q| == |Seps(d, stop)|
    ensures forall j :: 0 <= j < |q| ==> q[j] == Start(Seps(d, stop), j)
  {
    var c, strp, p := room, 0, 0;
    q := [];
    ghost var s := Seps(d, stop);
    while p < rbuf.Length
      invariant 0 <= p <= rbuf.Length
      invariant Seps(d, if p < stop then p else stop) <= s
      invariant |q| == |Seps(d, if p < stop then p else stop)| && strp == Start(s, |q|)
      invariant forall j :: 0 <= j < |q| ==> q[j] == Start(s, j)
      invariant c == room - PTR * |q|
    {
      assert rbuf[p] == rbuf[..][p];
      if p < stop {
        SepsPrefix(d, p + 1, stop);
      }
      if rbuf[p] == 0 {
        if c < 2 * PTR {
          break;
        }
        c := c - PTR;
        q := q + [strp];
        strp := p + 1;
      }
      p := p + 1;
    }
  }

  // ---------------------------------------------------------------------
  // The whole function
  // ---------------------------------------------------------------------

  /** The block: the bytes, and the pointer area behind them, aligned and reserved in
      bytes; a pointer is an offset into the bytes, and a NULL ends the list. */
  datatype Vec = Vec(bytes: seq<byte>, align: nat, reserved: nat, ptrs: seq<nat>)

  function StringAt(b: seq<byte>, p: nat): seq<byte>
    requires p <= |b|
    decreases |b| - p
  {
    if p == |b| || b[p] == 0 then [] else [b[p]] + StringAt(b, p + 1)
  }

  lemma {:induction false} StringIs(b: seq<byte>, p: nat, e: nat)
    requires p <= e < |b| && b[e] == 0 && forall i :: p <= i < e ==> b[i] != 0
    ensures StringAt(b, p) == b[p..e]
    decreases e - p
  {
    if p < e {
      StringIs(b, p + 1, e);
    }
  }

  /** The strings a caller reads through the pointers. */
  function Strings(v: Vec): seq<seq<byte>>
    requires forall j :: 0 <= j < |v.ptrs| ==> v.ptrs[j] <= |v.bytes|
  {
    seq(|v.ptrs|, j requires 0 <= j < |v.ptrs| => StringAt(v.bytes, v.ptrs[j]))
  }

  function Min(a: nat, b: nat): nat { if a < b then a else b }

  /** Newlines are NULs up to where the first pass stopped, at the end unless there were too
      many strings. */
  predicate ZeroedUpTo(d: seq<byte>, v: Vec, stop: nat) {
    && stop <= |d| && v.bytes == Zeroed(d, stop) && |Seps(d, stop)| == |v.ptrs|
    && (stop == |d| || |v.ptrs| < |Seps(d, |d|)|)
  }

  ghost predicate VecOf(d: seq<byte>, v: Vec)
    requires 0 < |d| <= LIMIT
  {
    && |v.bytes| == |d| && v.align == Align(|d|) && (|v.bytes| + v.align) % PTR == 0
    && v.reserved == PTR * (|v.ptrs| + 1)
    && |v.bytes| + v.align + v.reserved <= INT_MAX
    && |v.ptrs| == Min(|Seps(d, |d|)|, MaxPointers(|d|))
    && (forall j :: 0 <= j < |v.ptrs| ==> v.ptrs[j] == Start(Seps(d, |d|), j) <= |v.bytes|)
    && (exists stop :: ZeroedUpTo(d, v, stop))
    && Strings(v) == Pieces(d, |d|)[..|v.ptrs|]
  }

  lemma StringIsPiece(d: seq<byte>, stop: nat, j: nat)
    requires stop <= |d| && j < |Seps(d, stop)|
    ensures j < |Seps(d, |d|)| && Start(Seps(d, stop), j) < |d|
    ensures StringAt(Zeroed(d, stop), Start(Seps(d, stop), j)) == Pieces(d, |d|)[j]
  {
    SepsPrefix(d, stop, |d|);
    PieceAt(d, stop, j);
    PieceAt(d, |d|, j);
    var b, p, e := Zeroed(d, stop), Start(Seps(d, stop), j), Seps(d, stop)[j];
    forall i | p <= i < e ensures b[i] == d[i] != 0 {
      NoSepBetween(d, |d|, j, i);
    }
    StringIs(b, p, e);
    assert b[p..e] == d[p..e];
  }

  lemma StringsArePieces(d: seq<byte>, stop: nat, v: Vec)
    requires stop <= |d| && v.bytes == Zeroed(d, stop) && |v.ptrs| == |Seps(d, stop)|
    requires forall j :: 0 <= j < |v.ptrs| ==> v.ptrs[j] == Start(Seps(d, stop), j)
    ensures forall j :: 0 <= j < |v.ptrs| ==> v.ptrs[j] <= |v.bytes|
    ensures |v.ptrs| <= |Seps(d, |d|)|
    ensures Strings(v) == Pieces(d, |d|)[..|v.ptrs|]
  {
    hide Seps, StringAt, Zeroed, Pieces;
    SepsPrefix(d, stop, |d|);
    SameLength(d, stop);
    forall j | 0 <= j < |v.ptrs|
      ensures v.ptrs[j] <= |v.bytes| && StringAt(v.bytes, v.ptrs[j]) == Pieces(d, |d|)[j]
    {
      StringIsPiece(d, stop, j);
    }
  }

  lemma SameLength(d: seq<byte>, n: nat)
    ensures |Zeroed(d, n)| == |d|
  {}

  /** String j runs from its pointer to the next NUL or newline of the data, or to the end,
      and the next string starts behind that. */
  ghost predicate StringIsBetween(s: seq<byte>, v: Vec, j: nat)
    requires j < |v.ptrs|
  {
    v.ptrs[j] <= |v.bytes| &&
    var p := v.ptrs[j];
    var e := p + |StringAt(v.bytes, p)|;
    && e <= |s| && StringAt(v.bytes, p) == s[p..e] && (forall i :: p <= i < e ==> s[i] != 0 && s[i] != 10)
    && (e < |s| ==> s[e] == 0 || s[e] == 10)
    && (j + 1 < |v.ptrs| ==> v.ptrs[j + 1] == e + 1)
  }

  /** The bytes that end a string, among the first n. */
  function Ends(s: seq<byte>, n: nat): set<int>
    requires n <= |s|
  {
    set i | 0 <= i < n && (s[i] == 0 || s[i] == 10)
  }

  /** The block for the data s, byte by byte: a NUL is appended unless s ends in one; there is
      a string for every NUL and newline, and one more for a tail that none of them ends,
      or as many as the size of the block, an int, leaves room for. */
  ghost predicate BlockOf(s: seq<byte>, v: Vec)
    requires s != []
  {
    var extra := if s[|s| - 1] == 0 then 0 else 1;
    var n, all := |s| + extra, |Ends(s, |s|)| + extra;
    && |v.bytes| == n && 0 <= v.align < 8 && (n + v.align) % 8 == 0 && v.reserved == 8 * (|v.ptrs| + 1)
    && n + v.align + v.reserved <= 0x7fff_ffff
    && 1 <= |v.ptrs| <= all && (|v.ptrs| < all ==> n + v.align + v.reserved + 8 >= 0x7fff_ffff)
    && (forall i :: 0 <= i < |s| ==> v.bytes[i] == s[i] || (s[i] == 10 && v.bytes[i] == 0))
    && (|v.ptrs| == all ==> forall i :: 0 <= i < |s| && s[i] == 10 ==> v.bytes[i] == 0)
    && (n > |s| ==> v.bytes[|s|] == 0)
    && v.ptrs[0] == 0 && forall j :: 0 <= j < |v.ptrs| ==> StringIsBetween(s, v, j)
  }

  lemma {:induction false} SepsAreEnds(d: seq<byte>, n: nat)
    requires n <= |d|
    ensures |Seps(d, n)| == |Ends(d, n)|
  {
    if n > 0 {
      SepsAreEnds(d, n - 1);
      assert Ends(d, n) == Ends(d, n - 1) + if Sep(d[n - 1]) then {n - 1} else {};
    }
  }

  lemma TerminatedEnds(s: seq<byte>)
    requires s != []
    ensures var d, extra := Terminated(s), if s[|s| - 1] == 0 then 0 else 1;
      && |d| == |s| + extra && d[..|s|] == s && (extra == 1 ==> d[|s|] == 0) && d[|d| - 1] == 0
      && |Seps(d, |d|)| == |Ends(s, |s|)| + extra >= 1
  {
    var d := Terminated(s);
    SepsAreEnds(d, |s|);
    assert Ends(d, |s|) == Ends(s, |s|);
  }

  lemma SliceOfPrefix(d: seq<byte>, s: seq<byte>, p: nat, e: nat)
    requires p <= e <= |s| <= |d| && d[..|s|] == s
    ensures d[p..e] == s[p..e]
  {
    assert d[..|s|][p..e] == d[p..e];
  }

  lemma StringsBetween(d: seq<byte>, s: seq<byte>, v: Vec, j: nat)
    requires 0 < |d| <= LIMIT && |s| <= |d| <= |s| + 1 && d[..|s|] == s && VecOf(d, v) && j < |v.ptrs|
    ensures StringIsBetween(s, v, j)
  {
    hide StringAt, Zeroed, Seps, MaxPointers;
    var p, e := v.ptrs[j], Seps(d, |d|)[j];
    PieceAt(d, |d|, j);
    assert e <= |s|;
    assert StringAt(v.bytes, p) == Strings(v)[j] == Pieces(d, |d|)[j] == d[p..e];
    SliceOfPrefix(d, s, p, e);
    forall i | p <= i < e
      ensures s[i] != 0 && s[i] != 10
    {
      NoSepBetween(d, |d|, j, i);
      assert d[i] == d[..|s|][i];
    }
    assert e < |s| ==> d[e] == d[..|s|][e];
  }

  lemma BytesOfBlock(d: seq<byte>, s: seq<byte>, v: Vec)
    requires 0 < |d| <= LIMIT && |s| <= |d| && d[..|s|] == s && VecOf(d, v)
    ensures |v.bytes| == |d| && forall i :: 0 <= i < |s| ==> v.bytes[i] == s[i] || (s[i] == 10 && v.bytes[i] == 0)
    ensures |v.ptrs| == |Seps(d, |d|)| ==> forall i :: 0 <= i < |s| && s[i] == 10 ==> v.bytes[i] == 0
    ensures |s| < |d| && d[|s|] == 0 ==> v.bytes[|s|] == 0
  {
    hide Strings, Pieces, Start, MaxPointers;
    var stop :| ZeroedUpTo(d, v, stop);
    assert forall i :: 0 <= i < |s| ==> d[i] == d[..|s|][i];
  }

  /** What the two passes leave for a file, byte by byte. */
  lemma BlockIs(s: seq<byte>, v: Vec)
    requires 0 < |s| < LIMIT && VecOf(Terminated(s), v)
    ensures BlockOf(s, v)
  {
    hide Seps, Pieces, Strings, Zeroed, ZeroedUpTo, Ends, Terminated, StringIsBetween, MaxPointers, Align;
    var d := Terminated(s);
    TerminatedEnds(s);
    RoomForPointers(|d|);
    PointersFit(|d|, |v.ptrs|);
    AlignAligns(|d|);
    BytesOfBlock(d, s, v);
    forall j | 0 <= j < |v.ptrs|
      ensures StringIsBetween(s, v, j)
    {
      StringsBetween(d, s, v, j);
    }
  }

  /** When no string is missing, the strings joined by NULs are the data with newlines as
      NULs, and a NUL behind a tail. */
  lemma BlockJoins(s: seq<byte>, v: Vec)
    requires 0 < |s| < LIMIT && VecOf(Terminated(s), v)
    requires |v.ptrs| == |Ends(s, |s|)| + if s[|s| - 1] == 0 then 0 else 1
    ensures |Join(Strings(v))| == |s| + if s[|s| - 1] == 0 then 0 else 1
    ensures forall i :: 0 <= i < |s| ==> Join(Strings(v))[i] == if s[i] == 10 then 0 else s[i]
  {
    hide Seps, Pieces, Strings, Ends, Terminated, Join, MaxPointers;
    var d := Terminated(s);
    TerminatedEnds(s);
    WholeFile(d, v);
    assert forall i :: 0 <= i < |s| ==> d[i] == d[..|s|][i];
  }

  /** A read fails before any read was short. */
  lemma {:induction false} FailsIff(rs: seq<ReadResult>)
    ensures Fails(rs) <==> exists i :: 0 <= i < |rs| && FailsAt(rs, i)
  {
    if rs != [] {
      FailsIff(rs[1..]);
      if rs[0].Fail? {
        assert FailsAt(rs, 0);
      } else if Fails(rs) {
        var i :| 0 <= i < |rs[1..]| && FailsAt(rs[1..], i);
        assert forall j :: 1 <= j < |rs| ==> rs[1..][j - 1] == rs[j];
        assert FailsAt(rs, i + 1);
      } else if exists i :: 0 <= i < |rs| && FailsAt(rs, i) {
        var i :| 0 <= i < |rs| && FailsAt(rs, i);
        assert forall j :: 1 <= j < |rs| ==> rs[1..][j - 1] == rs[j];
        assert FailsAt(rs[1..], i - 1);
      }
    }
  }

  ghost predicate FailsAt(rs: seq<ReadResult>, i: nat)
    requires i < |rs|
  {
    rs[i].Fail? && forall j :: 0 <= j < i ==> rs[j].Data? && |rs[j].bytes| >= 2047
  }

  /** On every input: the pointers fit the space reserved for them, which starts
      pointer-aligned and is used to the last byte, and the strings behind them are
      the pieces of the file, or the first of them when there are too many. */
  method FileToStrVec(rs: seq<ReadResult>) returns (r: Option<Vec>)
    requires forall i :: 0 <= i < |rs| && rs[i].Data? ==> |rs[i].bytes| <= CHUNK
    ensures |Stream(rs)| < LIMIT ==>
              && (r.None? <==> Stream(rs) == [] || exists i :: 0 <= i < |rs| && FailsAt(rs, i))
              && (r.Some? ==> VecOf(Terminated(Stream(rs)), r.value) && BlockOf(Stream(rs), r.value))
    ensures |Stream(rs)| >= LIMIT ==>
              r.Some? && exists n :: LIMIT - CHUNK <= n < LIMIT && BlockOf(Stream(rs)[..n], r.value)
  {
    hide Stream, Fails, BlockOf, VecOf, Terminated;
    FailsIff(rs);
    var data := Slurp(rs);
    if data.None? {
      return None;
    }
    TerminatedLength(rs);
    var v := Vectorize(data.value);
    r := Some(v);
    if |Stream(rs)| < LIMIT {
      BlockIs(Stream(rs), v);
    } else {
      ghost var n: nat :| LIMIT - CHUNK <= n < LIMIT && n <= |Stream(rs)| && data.value == Terminated(Stream(rs)[..n]);
      BlockIs(Stream(rs)[..n], v);
    }
  }

  lemma TerminatedLength(rs: seq<ReadResult>)
    ensures forall s :: |Terminated(s)| > 0 && |Terminated(s)| <= |s| + 1
    ensures LIMIT == 1_908_874_304
  {}

  method Vectorize(d: seq<byte>) returns (v: Vec)
    requires 0 < |d| <= LIMIT
    ensures VecOf(d, v)
  {
    hide Zeroed, Seps, VecOf, Start;
    var rbuf := new byte[|d|](i requires 0 <= i < |d| => d[i]);
    assert rbuf[..] == d;
    var c, stop := CountPointers(rbuf);
    var q := FillPointers(rbuf, c, d, stop);
    v := Vec(rbuf[..], Align(|d|), c, q);
    PassesMakeAVec(d, stop, v);
  }

  /** So many pointers fit, and one more than the most would not. */
  lemma PointersFit(tot: nat, n: nat)
    requires tot <= LIMIT && n <= MaxPointers(tot)
    ensures tot + Align(tot) + PTR * (n + 1) <= INT_MAX
    ensures n == MaxPointers(tot) ==> tot + Align(tot) + PTR * (n + 2) >= INT_MAX
  {}

  lemma StartOfPrefix(a: seq<nat>, b: seq<nat>)
    requires a <= b
    ensures forall j :: 0 <= j <= |a| ==> Start(b, j) == Start(a, j)
  {}

  lemma StartsWithin(d: seq<byte>, n: nat)
    requires n <= |d|
    ensures forall j :: 0 <= j <= |Seps(d, n)| ==> Start(Seps(d, n), j) <= n
  {
    hide Seps;
    forall j | 0 < j <= |Seps(d, n)| ensures Start(Seps(d, n), j) <= n {
      PieceAt(d, n, j - 1);
    }
  }

  lemma SepsGrow(d: seq<byte>, stop: nat)
    requires stop <= |d|
    ensures |Seps(d, stop)| <= |Seps(d, |d|)| && (stop < |d| && Sep(d[stop]) ==> |Seps(d, stop)| < |Seps(d, |d|)|)
    ensures forall j :: 0 <= j <= |Seps(d, stop)| ==> Start(Seps(d, |d|), j) == Start(Seps(d, stop), j) <= stop
  {
    hide Start, Sep;
    SepsPrefix(d, stop, |d|);
    if stop < |d| {
      SepsPrefix(d, stop + 1, |d|);
    }
    StartOfPrefix(Seps(d, stop), Seps(d, |d|));
    StartsWithin(d, stop);
  }

  lemma PassesMakeAVec(d: seq<byte>, stop: nat, v: Vec)
    requires 0 < |d| <= LIMIT && stop <= |d| && v.bytes == Zeroed(d, stop) && v.align == Align(|d|)
    requires v.reserved == PTR * (|Seps(d, stop)| + 1) && |Seps(d, stop)| <= MaxPointers(|d|)
    requires stop < |d| ==> Sep(d[stop]) && |Seps(d, stop)| == MaxPointers(|d|)
    requires |v.ptrs| == |Seps(d, stop)| && forall j :: 0 <= j < |v.ptrs| ==> v.ptrs[j] == Start(Seps(d, stop), j)
    ensures VecOf(d, v)
  {
    hide Zeroed, Pieces, Strings, Seps, Start, Align, MaxPointers, Sep;
    AlignAligns(|d|);
    SameLength(d, stop);
    StringsArePieces(d, stop, v);
    SepsGrow(d, stop);
    PointersFit(|d|, |Seps(d, stop)|);
    assert ZeroedUpTo(d, v, stop);
  }

  lemma AllPieces(d: seq<byte>, v: Vec)
    requires 0 < |d| <= LIMIT && VecOf(d, v)
    ensures Strings(v) == Pieces(d, |d|) <==> |Seps(d, |d|)| <= MaxPointers(|d|)
  {
    assert Pieces(d, |d|)[..|Pieces(d, |d|)|] == Pieces(d, |d|);
  }

  lemma StringsAreClean(d: seq<byte>, v: Vec)
    requires 0 < |d| <= LIMIT && VecOf(d, v)
    ensures forall j, b :: 0 <= j < |v.ptrs| && b in Strings(v)[j] ==> !Sep(b)
  {
    hide Pieces, Seps, Strings;
    forall j | 0 <= j < |v.ptrs| ensures forall b :: b in Strings(v)[j] ==> !Sep(b) {
      PieceIsClean(d, |d|, j);
      assert Strings(v)[j] == Pieces(d, |d|)[j];
    }
  }

  /** The strings are all the pieces of the file exactly when it has no more than there is
      room for; joined by NULs they then are its bytes.  Newlines never are among them. */
  lemma WholeFile(d: seq<byte>, v: Vec)
    requires 0 < |d| <= LIMIT && d[|d| - 1] == 0 && VecOf(d, v)
    ensures |v.ptrs| >= 1
    ensures Strings(v) == Pieces(d, |d|) <==> |Seps(d, |d|)| <= MaxPointers(|d|)
    ensures |Seps(d, |d|)| <= MaxPointers(|d|) ==> Join(Strings(v)) == Zeroed(d, |d|)
    ensures forall j, b :: 0 <= j < |v.ptrs| && b in Strings(v)[j] ==> !Sep(b)
  {
    AllPieces(d, v);
    StringsAreClean(d, v);
    PiecesJoin(d, |d|);
    RoomForPointers(|d|);
    assert Seps(d, |d|) != [];
    hide Pieces, Seps, Join, Strings;
    assert Zeroed(d, |d|)[..|d|] == Zeroed(d, |d|);
  }

  /** A file of up to 128 MiB always comes back whole. */
  lemma SmallFile(d: seq<byte>, v: Vec)
    requires 0 < |d| <= 0x800_0000 && d[|d| - 1] == 0 && VecOf(d, v)
    ensures Strings(v) == Pieces(d, |d|) && Join(Strings(v)) == Zeroed(d, |d|)
  {
    hide Pieces, Seps, Join, VecOf, Strings;
    RoomForPointers(|d|);
    SepsAtMost(d);
    WholeFile(d, v);
  }

  lemma SepsAtMost(d: seq<byte>)
    ensures |Seps(d, |d|)| <= |d|
  {}
}
