/** The Rio package: loops over read and write that make up for short counts and interruptions. */
module Rio {
  import opened Types

  const EINTR: nat := 4

  /** What a failing call other than an interrupted one sets errno to. */
  type ErrorCode = e: nat | e != 0 && e != EINTR witness 5

  /** What one call to read or write does: transfer up to `most` + 1 bytes, or nothing, with errno EINTR
      (Interrupted) or another (Broken).  `zero` says of a write whether it then returns 0, errno being what an
      earlier call has left, rather than -1; a read returns 0 only at end of file. */
  datatype Outcome = Transfer(most: nat) | Interrupted(zero: bool) | Broken(zero: bool, code: ErrorCode)

  function Min(a: nat, b: nat): nat {
    if a < b then a else b
  }

  /** No call of the script fails other than by interruption. */
  predicate Sound(script: seq<Outcome>) {
    forall i | 0 <= i < |script| :: !script[i].Broken?
  }

  /** `before` was used up to `after`, and the last call made was the only broken one, if `broken`. */
  ghost predicate Used(before: seq<Outcome>, after: seq<Outcome>, broken: bool) {
    var n := |before| - |after|;
    && n >= 0 && before[n..] == after
    && if broken then n > 0 && before[n - 1].Broken? && Sound(before[..n - 1]) else Sound(before[..n])
  }

  lemma UsedNothing(script: seq<Outcome>)
    ensures Used(script, script, false)
  {
    assert script[0..] == script;
  }

  lemma UsedOneMore(before: seq<Outcome>, now: seq<Outcome>, after: seq<Outcome>)
    requires Used(before, now, false) && Used(now, after, false)
    ensures Used(before, after, false)
  {
    var n, m := |before| - |now|, |before| - |after|;
    assert before[m..] == before[n..][m - n..];
    forall i | 0 <= i < m ensures !before[i].Broken? {
      if i < n { assert before[..n][i] == before[i]; } else { assert before[i] == now[i - n] == now[..m - n][i - n]; }
    }
  }

  lemma UsedThenBroken(before: seq<Outcome>, now: seq<Outcome>, after: seq<Outcome>)
    requires Used(before, now, false) && Used(now, after, true)
    ensures Used(before, after, true)
  {
    var n, m := |before| - |now|, |before| - |after|;
    assert before[m..] == before[n..][m - n..];
    assert before[m - 1] == now[m - n - 1];
    forall i | 0 <= i < m - 1 ensures !before[i].Broken? {
      if i < n { assert before[..n][i] == before[i]; }
      else { assert before[i] == now[i - n] == now[..m - n - 1][i - n]; }
    }
  }

  // ----- errno

  /** What errno is after the calls `spent`: whatever the last one that failed has set it to. */
  function ErrnoAfter(e: nat, spent: seq<Outcome>): nat {
    if spent == [] then e
    else match spent[|spent| - 1]
      case Transfer(_) => ErrnoAfter(e, spent[..|spent| - 1])
      case Interrupted(_) => EINTR
      case Broken(_, code) => code
  }

  lemma {:induction false} ErrnoAfterBoth(e: nat, a: seq<Outcome>, b: seq<Outcome>)
    ensures ErrnoAfter(e, a + b) == ErrnoAfter(ErrnoAfter(e, a), b)
  {
    if b == [] {
      assert a + b == a;
    } else {
      assert (a + b)[..|a + b| - 1] == a + b[..|b| - 1];
      ErrnoAfterBoth(e, a, b[..|b| - 1]);
    }
  }

  lemma {:induction false} ErrnoSound(e: nat, spent: seq<Outcome>)
    requires Sound(spent)
    ensures ErrnoAfter(e, spent) == if exists i | 0 <= i < |spent| :: spent[i].Interrupted? then EINTR else e
  {
    if spent != [] {
      var less := spent[..|spent| - 1];
      ErrnoSound(e, less);
      assert forall i | 0 <= i < |less| :: spent[i] == less[i];
      assert spent[|spent| - 1].Interrupted? ==> exists i | 0 <= i < |spent| :: spent[i].Interrupted?;
    }
  }

  /** The reads that take the script from `before` to `after` take errno from `e` to `e'`. */
  ghost predicate Leaves(before: seq<Outcome>, e: nat, after: seq<Outcome>, e': nat) {
    |after| <= |before| && e' == ErrnoAfter(e, before[..|before| - |after|])
  }

  lemma LeavesAsIs(script: seq<Outcome>, e: nat)
    ensures Leaves(script, e, script, e)
  {
  }

  lemma LeavesFurther(before: seq<Outcome>, e: nat, now: seq<Outcome>, f: nat, after: seq<Outcome>, e': nat)
    requires Used(before, now, false) && Leaves(before, e, now, f) && Leaves(now, f, after, e')
    ensures Leaves(before, e, after, e')
  {
    var n, m := |before| - |now|, |before| - |after|;
    assert before[..m] == before[..n] + now[..m - n];
    ErrnoAfterBoth(e, before[..n], now[..m - n]);
  }

  /** errno has been set by the last call made, which failed. */
  ghost predicate Indicated(before: seq<Outcome>, after: seq<Outcome>, errno: nat) {
    var n := |before| - |after|;
    0 < n <= |before| && before[n - 1].Broken? && errno == before[n - 1].code
  }

  /** If a call has failed errno says so, and if none has it says nothing: it is EINTR if a call was interrupted, and
      otherwise what it was. */
  lemma ErrnoTells(before: seq<Outcome>, e: nat, after: seq<Outcome>, e': nat)
    requires Leaves(before, e, after, e')
    ensures Used(before, after, true) ==> Indicated(before, after, e') && e' != 0 && e' != EINTR
    ensures Used(before, after, false) ==>
              && !Indicated(before, after, e')
              && e' == if exists i | 0 <= i < |before| - |after| :: before[i].Interrupted? then 4 else e
  {
    var n := |before| - |after|;
    assert n > 0 ==> before[..n][n - 1] == before[n - 1];
    if Used(before, after, false) {
      ErrnoSound(e, before[..n]);
      assert forall i | 0 <= i < n :: before[..n][i] == before[i];
    }
  }

  /** The result of one read: bytes (none at end of file), or an error with errno EINTR or another. */
  datatype ReadResult = Got(bytes: Bytes) | Failed(eintr: bool)

  /** The reading end of a connection.  `unread` is what is still to come before end of file; once the
      script is used up every read transfers as much as it can. */
  class Source {
    var unread: Bytes
    var script: seq<Outcome>
    var errno: nat

    constructor (bytes: Bytes, script: seq<Outcome>)
      ensures unread == bytes && this.script == script && errno == 0
    {
      unread, this.script, errno := bytes, script, 0;
    }

    method Read(n: nat) returns (r: ReadResult)
      modifies this
      ensures Used(old(script), script, r == Failed(false))
      ensures Leaves(old(script), old(errno), script, errno)
      ensures r.Failed? ==> unread == old(unread) && |script| < |old(script)|
      ensures r.Got? ==> |r.bytes| <= n && old(unread) == r.bytes + unread
      ensures r.Got? && r.bytes == [] ==> n == 0 || unread == []
    {
      UsedNothing(script);
      var take := n;
      if script != [] {
        var now := script[0];
        script := script[1..];
        match now {
          case Broken(_, code) => errno := code; return Failed(false);
          case Interrupted(_) => errno := EINTR; return Failed(true);
          case Transfer(most) => take := Min(n, most + 1);
        }
      }
      take := Min(take, |unread|);
      r := Got(unread[..take]);
      unread := unread[take..];
    }
  }

  /** The writing end of a connection. */
  class Sink {
    var written: Bytes
    var script: seq<Outcome>

    constructor (script: seq<Outcome>)
      ensures written == [] && this.script == script
    {
      written, this.script := [], script;
    }

    /** Accepts a prefix of `bytes`.  When that is nothing, `count` is -1 or 0, and `eintr` says whether errno
        is EINTR. */
    method Write(bytes: Bytes) returns (count: int, eintr: bool)
      requires bytes != []
      modifies this
      ensures Used(old(script), script, count <= 0 && !eintr)
      ensures count <= 0 ==> written == old(written) && |script| < |old(script)|
      ensures count > 0 ==> count <= |bytes| && written == old(written) + bytes[..count]
    {
      UsedNothing(script);
      eintr := false;
      count := |bytes|;
      if script != [] {
        var now := script[0];
        script := script[1..];
        match now {
          case Broken(zero, _) => return if zero then 0 else -1, false;
          case Interrupted(zero) => return if zero then 0 else -1, true;
          case Transfer(most) => count := Min(|bytes|, most + 1);
        }
      }
      written := written + bytes[..count];
    }
  }

  /** `buf` with `bytes` written at `at`. */
  function Patch(buf: Bytes, at: nat, bytes: Bytes): (r: Bytes)
    requires at + |bytes| <= |buf|
    ensures |r| == |buf|
  {
    buf[..at] + bytes + buf[at + |bytes|..]
  }

  lemma PatchExactly(buf: Bytes, at: nat, bytes: Bytes, i: nat)
    requires at + |bytes| <= |buf| && i < |buf|
    ensures Patch(buf, at, bytes)[i] == if at <= i < at + |bytes| then bytes[i - at] else buf[i]
  {
  }

  lemma PatchedFront(buf: Bytes, bytes: Bytes)
    requires |bytes| <= |buf|
    ensures Patch(buf, 0, bytes)[0..|bytes|] == bytes
  {
  }

  /** `buf` once the first `n` bytes of `stream` have been stored in it. */
  function Filled(buf: Bytes, stream: Bytes, n: nat): (r: Bytes)
    requires n <= |stream| && n <= |buf|
    ensures |r| == |buf|
  {
    Patch(buf, 0, stream[..n])
  }

  method CopyInto(bytes: Bytes, buf: array<Byte>, at: nat)
    requires at + |bytes| <= buf.Length
    modifies buf
    ensures buf[..] == Patch(old(buf[..]), at, bytes)
  {
    var i := 0;
    while i < |bytes|
      invariant 0 <= i <= |bytes|
      invariant forall j | 0 <= j < buf.Length :: buf[j] == if at <= j < at + i then bytes[j - at] else old(buf[j])
    {
      buf[at + i] := bytes[i];
      i := i + 1;
    }
  }

  method PutOne(buf: array<Byte>, at: nat, c: Byte)
    requires at < buf.Length
    modifies buf
    ensures buf[..] == Patch(old(buf[..]), at, [c])
  {
    buf[at] := c;
  }

  /** The bytes taken off the front of `stream` have been stored, in order, at the front of `buf`. */
  ghost predicate Stored(stream: Bytes, rest: Bytes, before: Bytes, buf: Bytes) {
    var m := |stream| - |rest|;
    0 <= m <= |before| && rest == stream[m..] && buf == Filled(before, stream, m)
  }

  /** Byte by byte: the beginning of the buffer holds what has been taken, and the rest what it held. */
  lemma StoredExactly(stream: Bytes, rest: Bytes, before: Bytes, buf: Bytes)
    requires Stored(stream, rest, before, buf)
    ensures var m := |stream| - |rest|;
            && 0 <= m <= |buf| == |before| && m <= |stream|
            && (forall i | 0 <= i < m :: buf[i] == stream[i])
            && (forall i | m <= i < |buf| :: buf[i] == before[i])
            && (forall i | 0 <= i < |rest| :: rest[i] == stream[m + i])
  {
  }

  lemma StoredNothing(stream: Bytes, before: Bytes)
    ensures Stored(stream, stream, before, before)
  {
  }

  /** One more chunk of the stream arrives in the buffer right after what is there already. */
  lemma StoredMore(stream: Bytes, rest: Bytes, before: Bytes, buf: Bytes, m: nat, n: nat)
    requires Stored(stream, rest, before, buf) && m == |stream| - |rest| && n <= |rest| && m + n <= |before|
    ensures |buf| == |before| && Stored(stream, rest[n..], before, Patch(buf, m, rest[..n]))
  {
    assert stream[..m] + stream[m..][..n] == stream[..m + n];
  }

  /** rio_readn: the first min(n, bytes until end of file) bytes, in order, unless a call fails. */
  method ReadN(src: Source, buf: array<Byte>, n: nat) returns (r: int)
    requires n <= buf.Length
    modifies src, buf
    ensures Used(old(src.script), src.script, r < 0)
    ensures Leaves(old(src.script), old(src.errno), src.script, src.errno)
    ensures r == -1 || r >= 0
    ensures Stored(old(src.unread), src.unread, old(buf[..]), buf[..])
    ensures r >= 0 ==> r == Min(n, |old(src.unread)|) == |old(src.unread)| - |src.unread|
    ensures r < 0 ==> |old(src.unread)| - |src.unread| < n
  {
    ghost var stream, before := src.unread, buf[..];
    UsedNothing(src.script);
    LeavesAsIs(src.script, src.errno);
    StoredNothing(stream, before);
    hide Stored, Filled, Patch, Used, Leaves;
    var nleft, at := n, 0;
    while nleft > 0
      invariant 0 <= nleft <= n && at == n - nleft == |stream| - |src.unread|
      invariant Used(old(src.script), src.script, false)
      invariant Leaves(old(src.script), old(src.errno), src.script, src.errno)
      invariant Stored(stream, src.unread, before, buf[..])
      decreases nleft + |src.script|
    {
      ghost var script, errno, unread := src.script, src.errno, src.unread;
      var got := src.Read(nleft);
      LeavesFurther(old(src.script), old(src.errno), script, errno, src.script, src.errno);
      if got == Failed(false) {
        UsedThenBroken(old(src.script), script, src.script);
        return -1;
      }
      UsedOneMore(old(src.script), script, src.script);
      if got.Got? {
        if got.bytes == [] { break; }
        assert unread[..|got.bytes|] == got.bytes && unread[|got.bytes|..] == src.unread;
        StoredMore(stream, unread, before, buf[..], at, |got.bytes|);
        CopyInto(got.bytes, buf, at);
        nleft, at := nleft - |got.bytes|, at + |got.bytes|;
      }
    }
    return n - nleft;
  }

  /** The first `m` of `bytes` have been written after what was there. */
  ghost predicate Emitted(before: Bytes, written: Bytes, bytes: Bytes, m: nat) {
    m <= |bytes| && written == before + bytes[..m]
  }

  lemma EmittedNothing(before: Bytes, bytes: Bytes)
    ensures Emitted(before, before, bytes, 0)
  {
  }

  lemma EmittedSize(before: Bytes, written: Bytes, bytes: Bytes, m: nat)
    requires Emitted(before, written, bytes, m)
    ensures |written| == |before| + m && (m == |bytes| ==> written == before + bytes)
  {
    assert bytes[..|bytes|] == bytes;
  }

  lemma EmittedMore(before: Bytes, written: Bytes, bytes: Bytes, m: nat, n: nat)
    requires Emitted(before, written, bytes, m) && m + n <= |bytes|
    ensures Emitted(before, written + bytes[m..][..n], bytes, m + n)
  {
    assert bytes[..m] + bytes[m..][..n] == bytes[..m + n];
  }

  /** rio_writen: all n bytes, in order, unless a call fails. */
  method WriteN(dst: Sink, buf: array<Byte>, n: nat) returns (r: int)
    requires n <= buf.Length
    modifies dst
    ensures Used(old(dst.script), dst.script, r < 0)
    ensures r == -1 || r >= 0
    ensures r >= 0 ==> r == n && dst.written == old(dst.written) + buf[..n]
    ensures r < 0 ==>
              var m := |dst.written| - |old(dst.written)|;
              0 <= m < n && Emitted(old(dst.written), dst.written, buf[..n], m)
  {
    ghost var bytes, before, script := buf[..n], dst.written, dst.script;
    UsedNothing(script);
    EmittedNothing(before, bytes);
    hide Emitted, Used;
    var nleft, at := n, 0;
    while nleft > 0
      invariant 0 <= nleft <= n && at == n - nleft
      invariant Used(script, dst.script, false)
      invariant Emitted(before, dst.written, bytes, at)
      decreases nleft + |dst.script|
    {
      ghost var now, sofar := dst.script, dst.written;
      assert bytes[at..] == buf[at..n];
      var count, eintr := dst.Write(buf[at..n]);
      if count <= 0 {
        if eintr {
          count := 0;
        } else {
          UsedThenBroken(script, now, dst.script);
          EmittedSize(before, dst.written, bytes, at);
          return -1;
        }
      } else {
        EmittedMore(before, sofar, bytes, at, count);
      }
      UsedOneMore(script, now, dst.script);
      nleft, at := nleft - count, at + count;
    }
    EmittedSize(before, dst.written, bytes, n);
    return n;
  }

  const RIO_BUFSIZE: nat := 8192

  /** The shortest prefix of the stream that ends in a newline, has `most` bytes, or is all there is. */
  function LineLength(stream: Bytes, most: nat): (n: nat)
    ensures n <= |stream| && n <= most
  {
    if stream == [] || most == 0 then 0
    else if stream[0] == NEWLINE then 1
    else 1 + LineLength(stream[1..], most - 1)
  }

  const NEWLINE: Byte := 10

  /** What makes it the shortest such prefix. */
  lemma {:induction false} LineLengthIsShortest(stream: Bytes, most: nat)
    ensures var n := LineLength(stream, most);
            && (forall i | 0 <= i < n - 1 :: stream[i] != 10)
            && (n == most || n == |stream| || (n > 0 && stream[n - 1] == 10))
  {
    if stream != [] && most > 0 && stream[0] != NEWLINE {
      LineLengthIsShortest(stream[1..], most - 1);
    }
  }

  ghost predicate NoNewline(stream: Bytes, n: nat) {
    n <= |stream| && forall j | 0 <= j < n :: stream[j] != NEWLINE
  }

  lemma {:induction false} LineLengthAt(stream: Bytes, most: nat, i: nat)
    requires i <= most && NoNewline(stream, i)
    ensures i == |stream| || i == most ==> LineLength(stream, most) == i
    ensures i < |stream| && i < most && stream[i] == NEWLINE ==> LineLength(stream, most) == i + 1
    ensures i < |stream| && stream[i] != NEWLINE ==> NoNewline(stream, i + 1)
  {
    if i > 0 {
      LineLengthAt(stream[1..], most - 1, i - 1);
    }
  }

  /** A line and the zero byte after it have been stored. */
  ghost predicate StoredLine(stream: Bytes, rest: Bytes, before: Bytes, buf: Bytes) {
    var m := |stream| - |rest|;
    0 <= m < |before| && rest == stream[m..] && buf == Patch(Filled(before, stream, m), m, [0])
  }

  lemma StoredLineExactly(stream: Bytes, rest: Bytes, before: Bytes, buf: Bytes)
    requires StoredLine(stream, rest, before, buf)
    ensures var m := |stream| - |rest|;
            && 0 <= m < |buf| == |before| && m <= |stream|
            && (forall i | 0 <= i < m :: buf[i] == stream[i]) && buf[m] == 0
            && (forall i | m < i < |buf| :: buf[i] == before[i])
            && (forall i | 0 <= i < |rest| :: rest[i] == stream[m + i])
  {
    var m := |stream| - |rest|;
    StoredExactly(stream, rest, before, Filled(before, stream, m));
    hide Filled;
  }

  /** What rio_readlineb promises when it returns `r`: the line has been taken off the stream and stored, with
      a zero byte after it unless end of file came at once. */
  ghost predicate LineRead(stream: Bytes, rest: Bytes, before: Bytes, buf: Bytes, maxlen: nat, r: int)
    requires maxlen > 0
  {
    && r == LineLength(stream, maxlen - 1) == |stream| - |rest|
    && if r == 0 && maxlen > 1 then Stored(stream, rest, before, buf) else StoredLine(stream, rest, before, buf)
  }

  /** What it leaves when a call fails in the middle of a line: the bytes taken so far have been stored, and
      they do not complete a line. */
  ghost predicate LineBroken(stream: Bytes, rest: Bytes, before: Bytes, buf: Bytes, maxlen: nat) {
    var taken := |stream| - |rest|;
    Stored(stream, rest, before, buf) && taken + 1 < maxlen && NoNewline(stream, taken)
  }

  lemma NothingRead(stream: Bytes, rest: Bytes, before: Bytes, buf: Bytes, maxlen: nat, at: nat)
    requires maxlen > 1 && Stored(stream, rest, before, buf) && |stream| - |rest| == at &&
             LineLength(stream, maxlen - 1) == at
    ensures at == 0 ==> LineRead(stream, rest, before, buf, maxlen, 0)
  {
  }

  lemma StoredThenZero(stream: Bytes, rest: Bytes, before: Bytes, buf: Bytes)
    requires Stored(stream, rest, before, buf) && |stream| - |rest| < |before|
    ensures StoredLine(stream, rest, before, Patch(buf, |stream| - |rest|, [0]))
  {
  }

  lemma StoredHead(stream: Bytes, rest: Bytes, before: Bytes, buf: Bytes)
    requires Stored(stream, rest, before, buf) && rest != []
    ensures rest[0] == stream[|stream| - |rest|]
  {
  }

  /** A descriptor with a read buffer. */
  class Reader {
    const fd: Source
    var cnt: int
    var ptr: nat
    const buf: array<Byte>
    /** Everything that has been handed out, and everything that there was to read. */
    ghost var delivered: Bytes
    ghost const origin: Bytes

    ghost function Buffered(): Bytes
      reads this, buf
      requires cnt > 0 ==> ptr + cnt <= buf.Length
    {
      if cnt > 0 then buf[ptr..ptr + cnt] else []
    }

    /** The bytes still to be delivered: the unread part of the buffer, then the descriptor's. */
    ghost function Stream(): Bytes
      reads this, buf, fd
      requires cnt > 0 ==> ptr + cnt <= buf.Length
    {
      Buffered() + fd.unread
    }

    ghost predicate Valid()
      reads this, buf, fd
    {
      && buf.Length == RIO_BUFSIZE
      && (cnt > 0 ==> ptr + cnt <= buf.Length)
      && delivered + Stream() == origin
    }

    /** rio_readinitb. */
    constructor (fd: Source)
      ensures Valid() && this.fd == fd && Stream() == fd.unread && fresh(buf) && delivered == []
    {
      this.fd, cnt, ptr := fd, 0, 0;
      buf := new Byte[RIO_BUFSIZE];
      delivered, origin := [], fd.unread;
    }

    /** The part of rio_read that refills an empty buffer. */
    method Refill() returns (r: int)
      requires Valid()
      modifies this`cnt, this`ptr, buf, fd
      ensures Valid() && Stream() == old(Stream())
      ensures Used(old(fd.script), fd.script, r < 0)
      ensures r > 0 ==> cnt > 0
      ensures r == 0 ==> Stream() == []
    {
      UsedNothing(fd.script);
      while cnt <= 0
        invariant Valid() && Stream() == old(Stream())
        invariant Used(old(fd.script), fd.script, false)
        decreases |fd.script|, cnt <= 0
      {
        ghost var script := fd.script;
        r := Fill();
        if r == -1 {
          UsedThenBroken(old(fd.script), script, fd.script);
          return;
        }
        UsedOneMore(old(fd.script), script, fd.script);
        if r == 0 { return; }
      }
      return 1;
    }

    /** One read into the empty buffer; 1 after an interruption as well. */
    method Fill() returns (r: int)
      requires Valid() && cnt <= 0
      modifies this`cnt, this`ptr, buf, fd
      ensures Valid() && Stream() == old(Stream())
      ensures Used(old(fd.script), fd.script, r == -1)
      ensures r == -1 || r == 0 || r == 1
      ensures r == 0 ==> Stream() == []
      ensures r == 1 ==> cnt > 0 || |fd.script| < |old(fd.script)|
    {
      hide Used, Leaves, Patch;
      var got := fd.Read(buf.Length);
      match got {
        case Failed(eintr) =>
          cnt := -1;
          return if eintr then 1 else -1;
        case Got(bytes) =>
          assert old(fd.unread) == bytes + fd.unread && old(Stream()) == old(fd.unread);
          if bytes == [] { cnt := 0; return 0; }
          Load(bytes);
          assert Stream() == bytes + fd.unread;
          return 1;
      }
    }

    /** What has been read is now in the buffer. */
    method Load(bytes: Bytes)
      requires buf.Length == RIO_BUFSIZE && 0 < |bytes| <= buf.Length
      modifies this`cnt, this`ptr, buf
      ensures cnt == |bytes| && ptr == 0 && Buffered() == bytes
    {
      cnt := |bytes|;
      CopyInto(bytes, buf, 0);
      ptr := 0;
      PatchedFront(old(buf[..]), bytes);
      assert buf[0..|bytes|] == buf[..][0..|bytes|];
    }

    /** The part of rio_read that copies out of the buffer. */
    method Deliver(usrbuf: array<Byte>, at: nat, r: nat)
      requires Valid() && 0 <= r <= cnt && cnt > 0 && at + r <= usrbuf.Length && usrbuf != buf
      modifies this`cnt, this`ptr, this`delivered, usrbuf
      ensures Valid() && r <= |old(Stream())|
      ensures Stream() == old(Stream())[r..]
      ensures usrbuf[..] == Patch(old(usrbuf[..]), at, old(Stream())[..r])
    {
      ghost var unread, sent, stream := Buffered(), delivered, Stream();
      assert stream == unread + fd.unread && buf[ptr..ptr + r] == unread[..r] && sent + stream == origin;
      SplitHead(sent, unread, fd.unread, r);
      hide Patch;
      CopyInto(buf[ptr..ptr + r], usrbuf, at);
      delivered := sent + unread[..r];
      ptr, cnt := ptr + r, cnt - r;
      assert Buffered() == unread[r..];
      hide Buffered;
      assert Stream() == stream[r..];
      assert delivered + Stream() == origin;
    }

    lemma SplitHead(sent: Bytes, a: Bytes, b: Bytes, r: nat)
      requires r <= |a|
      ensures (a + b)[..r] == a[..r] && (a + b)[r..] == a[r..] + b
      ensures (sent + a[..r]) + (a[r..] + b) == sent + (a + b)
    {
    }

    /** rio_read: up to `n` bytes of the stream into `usrbuf` at `at`. */
    method Read(usrbuf: array<Byte>, at: nat, n: nat) returns (r: int)
      requires Valid() && at + n <= usrbuf.Length && usrbuf != buf
      modifies this`cnt, this`ptr, this`delivered, buf, fd, usrbuf
      ensures Valid()
      ensures Used(old(fd.script), fd.script, r < 0)
      ensures r < 0 ==> Stream() == old(Stream()) && usrbuf[..] == old(usrbuf[..])
      ensures r >= 0 ==> r <= n && r <= |old(Stream())| && (r == 0 ==> n == 0 || old(Stream()) == [])
      ensures r >= 0 ==> Stream() == old(Stream())[r..]
      ensures r >= 0 ==> usrbuf[..] == Patch(old(usrbuf[..]), at, old(Stream())[..r])
    {
      ghost var stream, before := Stream(), usrbuf[..];
      assert Patch(before, at, stream[..0]) == before && stream[0..] == stream;
      hide Patch, Stream, Used;
      r := Refill();
      if r > 0 {
        r := if cnt < n then cnt else n;
        Deliver(usrbuf, at, r);
      }
    }

    /** rio_readnb: the first min(n, bytes until end of file) bytes of the stream, unless a call fails. */
    method ReadNB(usrbuf: array<Byte>, n: nat) returns (r: int)
      requires Valid() && n <= usrbuf.Length && usrbuf != buf
      modifies this`cnt, this`ptr, this`delivered, buf, fd, usrbuf
      ensures Valid()
      ensures Used(old(fd.script), fd.script, r < 0)
      ensures Stored(old(Stream()), Stream(), old(usrbuf[..]), usrbuf[..])
      ensures r >= 0 ==> r == Min(n, |old(Stream())|) == |old(Stream())| - |Stream()|
      ensures r < 0 ==> |old(Stream())| - |Stream()| < n
    {
      ghost var stream, before := Stream(), usrbuf[..];
      UsedNothing(fd.script);
      StoredNothing(stream, before);
      hide Stored, Filled, Patch, Used, Valid, Stream;
      var nleft, at := n, 0;
      while nleft > 0
        invariant Valid() && 0 <= nleft <= n && at == n - nleft == |stream| - |Stream()|
        invariant Used(old(fd.script), fd.script, false)
        invariant Stored(stream, Stream(), before, usrbuf[..])
        decreases nleft
      {
        ghost var script, rest, mid := fd.script, Stream(), usrbuf[..];
        var nread := Read(usrbuf, at, nleft);
        if nread < 0 {
          UsedThenBroken(old(fd.script), script, fd.script);
          return -1;
        }
        UsedOneMore(old(fd.script), script, fd.script);
        if nread == 0 { break; }
        StoredMore(stream, rest, before, mid, at, nread);
        nleft, at := nleft - nread, at + nread;
      }
      return n - nleft;
    }

    /** rio_read of a single byte. */
    method ReadByte() returns (c: Byte, rc: int)
      requires Valid()
      modifies this`cnt, this`ptr, this`delivered, buf, fd
      ensures Valid()
      ensures Used(old(fd.script), fd.script, rc < 0)
      ensures rc < 0 ==> Stream() == old(Stream())
      ensures rc >= 0 ==> rc == if old(Stream()) == [] then 0 else 1
      ensures rc >= 0 ==> Stream() == old(Stream())[rc..] && (rc == 1 ==> c == old(Stream())[0])
    {
      var one := new Byte[1];
      rc := Read(one, 0, 1);
      c := one[0];
      if rc == 1 {
        ghost var stream := old(Stream());
        assert one[..] == stream[..1];
        assert one[..][0] == c;
      }
    }

    /** rio_readlineb: the shortest prefix of the stream that ends in a newline, has maxlen - 1 bytes or
        runs up to end of file; a zero byte follows it unless end of file comes at once. */
    method ReadLineB(usrbuf: array<Byte>, maxlen: nat) returns (r: int)
      requires Valid() && 1 <= maxlen <= usrbuf.Length && usrbuf != buf
      modifies this`cnt, this`ptr, this`delivered, buf, fd, usrbuf
      ensures Valid()
      ensures Used(old(fd.script), fd.script, r < 0)
      ensures r == -1 || r >= 0
      ensures r < 0 ==> LineBroken(old(Stream()), Stream(), old(usrbuf[..]), usrbuf[..], maxlen)
      ensures r >= 0 ==> LineRead(old(Stream()), Stream(), old(usrbuf[..]), usrbuf[..], maxlen, r)
    {
      ghost var stream, before, script := Stream(), usrbuf[..], fd.script;
      UsedNothing(script);
      StoredNothing(stream, before);
      LineLengthAt(stream, maxlen - 1, 0);
      hide Stored, StoredLine, Filled, Patch, Used, Valid, Stream, Buffered, LineLength, LineRead, LineBroken;
      assert Reading(usrbuf, stream, before, script, maxlen, 0);
      hide Reading;
      var n, at := 1, 0;
      while n < maxlen
        invariant 1 <= n <= maxlen && at == n - 1
        invariant Reading(usrbuf, stream, before, script, maxlen, at) && NoNewline(stream, at)
        invariant n == maxlen ==> LineLength(stream, maxlen - 1) == at
      {
        var c, rc := StoreByte(usrbuf, at, stream, before, script, maxlen);
        if rc == 1 {
          at := at + 1;
          if c == NEWLINE {
            n := n + 1;
            break;
          }
        } else if rc == 0 {
          if n == 1 { return 0; }
          break;
        } else {
          return -1;
        }
        n := n + 1;
      }
      EndLine(usrbuf, at, stream, before, script, maxlen);
      return n - 1;
    }

    /** The state of rio_readlineb after `at` bytes of a line, none of them a newline or only the last one. */
    ghost predicate Reading(usrbuf: array<Byte>, stream: Bytes, before: Bytes, script: seq<Outcome>, maxlen: nat,
                            at: nat)
      reads this, buf, fd, usrbuf
    {
      && Valid() && usrbuf != buf && 0 < maxlen <= usrbuf.Length
      && Used(script, fd.script, false)
      && Stored(stream, Stream(), before, usrbuf[..]) && at == |stream| - |Stream()|
      && (NoNewline(stream, at) || LineLength(stream, maxlen - 1) == at)
    }

    /** The zero byte after a line. */
    method EndLine(usrbuf: array<Byte>, at: nat, ghost stream: Bytes, ghost before: Bytes,
                   ghost script: seq<Outcome>, ghost maxlen: nat)
      requires Reading(usrbuf, stream, before, script, maxlen, at)
      requires LineLength(stream, maxlen - 1) == at < maxlen && (at > 0 || maxlen == 1)
      modifies usrbuf
      ensures Valid() && Used(script, fd.script, false)
      ensures LineRead(stream, Stream(), before, usrbuf[..], maxlen, at)
    {
      StoredSizes(stream, Stream(), before, usrbuf[..]);
      StoredThenZero(stream, Stream(), before, usrbuf[..]);
      hide Stored, StoredLine, Patch;
      PutOne(usrbuf, at, 0);
    }

    /** One byte off the stream and into the buffer. */
    method MoveByte(usrbuf: array<Byte>, at: nat, ghost stream: Bytes, ghost before: Bytes) returns (c: Byte, rc: int)
      requires Valid() && at < usrbuf.Length && usrbuf != buf
      requires Stored(stream, Stream(), before, usrbuf[..]) && at == |stream| - |Stream()|
      modifies this`cnt, this`ptr, this`delivered, buf, fd, usrbuf
      ensures Valid() && Stored(stream, Stream(), before, usrbuf[..])
      ensures Used(old(fd.script), fd.script, rc < 0)
      ensures rc >= 0 ==> rc == if |stream| == at then 0 else 1
      ensures |Stream()| == |stream| - at - if rc == 1 then 1 else 0
      ensures rc == 1 ==> at < |stream| && c == stream[at]
    {
      ghost var rest, mid := Stream(), usrbuf[..];
      StoredSizes(stream, rest, before, mid);
      assert rest[0..] == rest;
      hide Stored, Patch, Used, Valid, Stream;
      c, rc := ReadByte();
      if rc == 1 {
        StoredMore(stream, rest, before, mid, at, 1);
        StoredHead(stream, rest, before, mid);
        assert rest[..1] == [c];
        PutOne(usrbuf, at, c);
      }
    }

    /** One round of rio_readlineb. */
    method StoreByte(usrbuf: array<Byte>, at: nat, ghost stream: Bytes, ghost before: Bytes,
                     ghost script: seq<Outcome>, ghost maxlen: nat)
      returns (c: Byte, rc: int)
      requires Reading(usrbuf, stream, before, script, maxlen, at) && NoNewline(stream, at) && at + 1 < maxlen
      modifies this`cnt, this`ptr, this`delivered, buf, fd, usrbuf
      ensures rc < 0 ==>
          Valid() && Used(script, fd.script, true) && LineBroken(stream, Stream(), before, usrbuf[..], maxlen)
      ensures rc == 0 ==> Reading(usrbuf, stream, before, script, maxlen, at) && LineLength(stream, maxlen - 1) == at
      ensures rc == 0 && at == 0 && maxlen > 1 ==> LineRead(stream, Stream(), before, usrbuf[..], maxlen, 0)
      ensures rc > 0 ==> rc == 1 && Reading(usrbuf, stream, before, script, maxlen, at + 1)
      ensures rc > 0 && c != NEWLINE ==> NoNewline(stream, at + 1)
      ensures rc > 0 && (c == NEWLINE || at + 2 == maxlen) ==> LineLength(stream, maxlen - 1) == at + 1
    {
      hide Stored, Patch, Used, Stream, Buffered, LineLength, LineRead;
      ghost var script0 := fd.script;
      LineLengthAt(stream, maxlen - 1, at);
      c, rc := MoveByte(usrbuf, at, stream, before);
      if rc < 0 {
        UsedThenBroken(script, script0, fd.script);
      } else {
        UsedOneMore(script, script0, fd.script);
        if rc == 0 {
          NothingRead(stream, Stream(), before, usrbuf[..], maxlen, at);
        } else if c != NEWLINE {
          LineLengthAt(stream, maxlen - 1, at + 1);
        }
      }
    }
  }

  lemma StoredSizes(stream: Bytes, rest: Bytes, before: Bytes, buf: Bytes)
    requires Stored(stream, rest, before, buf)
    ensures |before| == |buf|
  {
  }

  // ----- Any interleaving of the two buffered reads

  datatype Request = Block(n: nat) | Line(maxlen: nat)

  /** How many bytes the answer to a request takes off the stream. */
  function Taken(stream: Bytes, q: Request): (n: nat)
    ensures n <= |stream|
  {
    match q
    case Block(n) => Min(n, |stream|)
    case Line(maxlen) => if maxlen == 0 then 0 else LineLength(stream, maxlen - 1)
  }

  /** The answers to the requests, one after the other, and what is left of the stream. */
  function Answers(stream: Bytes, qs: seq<Request>): seq<Bytes>
    decreases |qs|
  {
    if qs == [] then []
    else
      var n := Taken(stream, qs[0]);
      [stream[..n]] + Answers(stream[n..], qs[1..])
  }

  function Left(stream: Bytes, qs: seq<Request>): Bytes
    decreases |qs|
  {
    if qs == [] then stream else Left(stream[Taken(stream, qs[0])..], qs[1..])
  }

  lemma {:induction false} AnswersSnoc(stream: Bytes, qs: seq<Request>, q: Request)
    ensures var rest := Left(stream, qs); var n := Taken(rest, q);
            && Answers(stream, qs + [q]) == Answers(stream, qs) + [rest[..n]]
            && Left(stream, qs + [q]) == rest[n..]
    decreases |qs|
  {
    if qs == [] {
      assert [q][1..] == [] && qs + [q] == [q];
      assert Answers(stream[Taken(stream, q)..], []) == [];
    } else {
      assert (qs + [q])[1..] == qs[1..] + [q];
      AnswersSnoc(stream[Taken(stream, qs[0])..], qs[1..], q);
    }
  }

  /** Together the answers and what is left are the stream: nothing is lost, doubled or reordered. */
  lemma {:induction false} AnswersMakeStream(stream: Bytes, qs: seq<Request>)
    ensures Joined(Answers(stream, qs)) + Left(stream, qs) == stream
    decreases |qs|
  {
    if qs != [] {
      var n := Taken(stream, qs[0]);
      AnswersMakeStream(stream[n..], qs[1..]);
      var rest, left := Answers(stream[n..], qs[1..]), Left(stream[n..], qs[1..]);
      hide Answers, Left;
      assert ([stream[..n]] + rest)[1..] == rest;
      Spliced(stream, n, Joined(rest), left);
    }
  }

  lemma Spliced(stream: Bytes, n: nat, a: Bytes, b: Bytes)
    requires n <= |stream| && a + b == stream[n..]
    ensures stream[..n] + a + b == stream
  {
    assert stream[..n] + a + b == stream[..n] + (a + b);
  }

  function Joined(parts: seq<Bytes>): Bytes {
    if parts == [] then [] else parts[0] + Joined(parts[1..])
  }

  lemma StoredPrefix(stream: Bytes, rest: Bytes, before: Bytes, buf: Bytes)
    requires Stored(stream, rest, before, buf)
    ensures var n := |stream| - |rest|; 0 <= n <= |buf| && buf[..n] == stream[..n] && rest == stream[n..]
  {
  }

  lemma StoredLinePrefix(stream: Bytes, rest: Bytes, before: Bytes, buf: Bytes)
    requires StoredLine(stream, rest, before, buf)
    ensures var n := |stream| - |rest|; 0 <= n < |buf| && buf[..n] == stream[..n] && buf[n] == 0 && rest == stream[n..]
  {
  }

  /** One request, with a buffer of its own. */
  method Ask(reader: Reader, q: Request) returns (ok: bool, answer: Bytes)
    requires reader.Valid() && (q.Line? ==> q.maxlen > 0)
    modifies reader`cnt, reader`ptr, reader`delivered, reader.buf, reader.fd
    ensures reader.Valid() && Used(old(reader.fd.script), reader.fd.script, !ok)
    ensures ok ==> var n := Taken(old(reader.Stream()), q);
              answer == old(reader.Stream())[..n] && reader.Stream() == old(reader.Stream())[n..]
  {
    hide Used, reader.Stream, Stored, StoredLine, LineLength, LineBroken;
    ghost var stream := reader.Stream();
    var size := if q.Block? then q.n else q.maxlen;
    var usrbuf := new Byte[size];
    ghost var before := usrbuf[..];
    var r;
    if q.Block? {
      r := reader.ReadNB(usrbuf, q.n);
      StoredPrefix(stream, reader.Stream(), before, usrbuf[..]);
    } else {
      r := reader.ReadLineB(usrbuf, q.maxlen);
      if r >= 0 { LinePrefix(stream, reader.Stream(), before, usrbuf[..], q.maxlen, r); }
    }
    ok, answer := r >= 0, [];
    if ok { answer := usrbuf[..r]; assert usrbuf[..r] == usrbuf[..][..r]; }
  }

  lemma LinePrefix(stream: Bytes, rest: Bytes, before: Bytes, buf: Bytes, maxlen: nat, r: int)
    requires maxlen > 0 && LineRead(stream, rest, before, buf, maxlen, r)
    ensures 0 <= r <= |buf| && r == LineLength(stream, maxlen - 1) && buf[..r] == stream[..r] && rest == stream[r..]
  {
    if r == 0 && maxlen > 1 {
      StoredPrefix(stream, rest, before, buf);
    } else {
      StoredLinePrefix(stream, rest, before, buf);
    }
  }

  /** The buffered reader refines a byte stream: whatever the requests and however the reads are cut short or
      interrupted, the answers depend only on the bytes of the stream.  It fails only if a read fails. */
  method AskAll(reader: Reader, qs: seq<Request>) returns (ok: bool, answers: seq<Bytes>)
    requires reader.Valid() && forall i | 0 <= i < |qs| :: qs[i].Line? ==> qs[i].maxlen > 0
    modifies reader`cnt, reader`ptr, reader`delivered, reader.buf, reader.fd
    ensures reader.Valid() && Used(old(reader.fd.script), reader.fd.script, !ok)
    ensures ok ==> answers == Answers(old(reader.Stream()), qs) && reader.Stream() == Left(old(reader.Stream()), qs)
  {
    hide Used, reader.Stream, Answers, Left, Taken;
    ghost var stream, script := reader.Stream(), reader.fd.script;
    UsedNothing(script);
    AnswersNone(stream);
    var i := 0;
    answers := [];
    while i < |qs|
      invariant 0 <= i <= |qs| && reader.Valid() && Used(script, reader.fd.script, false)
      invariant answers == Answers(stream, qs[..i]) && reader.Stream() == Left(stream, qs[..i])
    {
      ghost var now := reader.fd.script;
      AnswersSnoc(stream, qs[..i], qs[i]);
      assert qs[..i + 1] == qs[..i] + [qs[i]];
      var answer;
      ok, answer := Ask(reader, qs[i]);
      if !ok {
        UsedThenBroken(script, now, reader.fd.script);
        return;
      }
      UsedOneMore(script, now, reader.fd.script);
      answers := answers + [answer];
      i := i + 1;
    }
    assert qs[..|qs|] == qs;
    ok := true;
  }

  lemma AnswersNone(stream: Bytes)
    ensures Answers(stream, []) == [] && Left(stream, []) == stream
  {
  }
}
