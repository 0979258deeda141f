/** A file is uploaded in chunks that are read from its body, which may be limited in size. */
module Upload {
  import opened Wrappers
  import Int64

  type Bytes = seq<bv8>

  datatype ReadError = Ok | Eof | Failed | TooLarge

  const BUFFER_SIZE: nat := 4096

  /** Any reader: it gives bytes in pieces of its own choice, and may fail at any time. */
  class Reader {
    /** The bytes not yet read. */
    var rest: Bytes
    /** It has failed, or has given no bytes with no error. */
    ghost var failed: bool
    ghost var stalled: bool

    constructor (data: Bytes)
      ensures rest == data && !failed && !stalled
    {
      rest, failed, stalled := data, false, false;
    }

    method Read(size: nat) returns (b: Bytes, err: ReadError)
      requires size > 0
      modifies this
      ensures |b| <= size && old(rest) == b + rest && err != TooLarge
      ensures err == Eof ==> rest == []
      ensures failed == (old(failed) || err == Failed) && stalled == (old(stalled) || (err == Ok && b == []))
    {
      var n :| 0 <= n <= if size < |rest| then size else |rest|;
      b := rest[..n];
      rest := rest[n..];
      var fails, ends := *, *;
      err := if fails then Failed else if rest == [] && ends then Eof else Ok;
      failed, stalled := failed || err == Failed, stalled || (err == Ok && b == []);
    }
  }

  /** A reader of at most a number of bytes. */
  class LimitedReader {
    /** How many bytes may yet be read; -1 once there were more. */
    var n: int
    const r: Reader

    ghost const limit: nat
    /** The bytes given so far. */
    ghost var given: Bytes

    constructor (limit: nat, r: Reader)
      requires limit < Int64.MAX
      ensures Valid() && this.r == r && this.limit == limit && given == []
    {
      this.n, this.r, this.limit, this.given := limit, r, limit, [];
    }

    ghost predicate Valid()
      reads this
    {
      if n >= 0 then |given| + n == limit else n == -1 && |given| <= limit
    }

    /** No more bytes are given than the limit; and the error for a body that is too large stays. */
    method Read(size: nat) returns (b: Bytes, err: ReadError)
      requires Valid() && size > 0
      modifies this, r
      ensures Valid() && |b| <= size && given == old(given) + b && |given| <= limit
      ensures err == TooLarge <==> n < 0
      ensures err == TooLarge ==> b == [] && (old(n) >= 0 ==> |old(r.rest)| > old(n))
      ensures old(n) < 0 ==> err == TooLarge && n == old(n) && r.rest == old(r.rest)
      ensures err != TooLarge ==> old(r.rest) == b + r.rest
      ensures err == Eof ==> r.rest == []
      ensures r.failed ==> old(r.failed) || err in {Failed, TooLarge}
      ensures r.stalled ==> old(r.stalled) || (err == Ok && b == [])
      ensures (err == Failed ==> r.failed) && (err == Ok && b == [] ==> r.stalled)
    {
      b, err := [], Ok;
      if n >= 0 {
        var most := if size > n + 1 then n + 1 else size;
        b, err := r.Read(most);
        n := n - |b|;
      }
      if n < 0 {
        return [], TooLarge;
      }
      given := given + b;
    }
  }

  datatype Body = Plain(r: Reader) | Limited(l: LimitedReader)

  function Source(body: Body): Reader {
    match body
    case Plain(r) => r
    case Limited(l) => l.r
  }

  /** How many bytes of the body may be given. */
  ghost predicate Allows(body: Body, size: nat) {
    body.Limited? ==> size <= body.l.limit
  }

  ghost function Frame(body: Body): set<object> {
    match body
    case Plain(r) => {r}
    case Limited(l) => {l, l.r}
  }

  /** `done` of the body `all` is given. */
  ghost predicate Given(body: Body, all: Bytes, done: Bytes)
    reads Frame(body)
  {
    && done + Source(body).rest == all
    && (body.Limited? ==> body.l.Valid() && body.l.n >= 0 && body.l.given == done)
  }

  method ReadBody(body: Body, size: nat, ghost all: Bytes, ghost done: Bytes) returns (b: Bytes, err: ReadError)
    requires Given(body, all, done) && size > 0
    modifies Frame(body)
    ensures |b| <= size && (err != TooLarge ==> Given(body, all, done + b) && Allows(body, |done + b|))
    ensures err == TooLarge ==> b == [] && !Allows(body, |all|)
    ensures err == Eof ==> done + b == all
    ensures (err == Failed ==> Source(body).failed) && (err == Ok && b == [] ==> Source(body).stalled)
  {
    match body {
      case Plain(r) =>
        b, err := r.Read(size);
      case Limited(l) =>
        b, err := l.Read(size);
    }
    if err != TooLarge {
      assert done + (b + Source(body).rest) == (done + b) + Source(body).rest;
    }
    if err == Eof {
      assert (done + b) + [] == done + b;
    }
  }

  datatype Outcome = Uploaded | ReadFailed(err: ReadError) | SendFailed | CloseFailed

  function Flat(chunks: seq<Bytes>): Bytes {
    if chunks == [] then [] else Flat(chunks[..|chunks| - 1]) + chunks[|chunks| - 1]
  }

  lemma FlatMore(chunks: seq<Bytes>, b: Bytes)
    ensures Flat(chunks + [b]) == Flat(chunks) + b
  {
    assert (chunks + [b])[..|chunks|] == chunks;
  }

  /** Each chunk could be sent, and fits the buffer. */
  ghost predicate Sent(chunks: seq<Bytes>, sends: nat -> bool) {
    forall i :: 0 <= i < |chunks| ==> sends(i) && |chunks[i]| <= 4096
  }

  lemma SentMore(chunks: seq<Bytes>, sends: nat -> bool, b: Bytes)
    requires Sent(chunks, sends) && sends(|chunks|) && |b| <= 4096
    ensures Sent(chunks + [b], sends)
  {
  }

  /**
   The chunks sent are a part of the body from its start, within its limit, and an
   error is returned only for a failure of its kind. Without failures, and unless the
   reader stalled, the body is uploaded whole when it is within the limit, and else
   refused as too large. `sends` tells for each chunk whether it can be sent.
   */
  method UploadFile(body: Body, sends: nat -> bool, closes: bool) returns (chunks: seq<Bytes>, sent: nat, res: Outcome)
    requires Given(body, Source(body).rest, []) && !Source(body).failed && !Source(body).stalled
    modifies Frame(body)
    ensures Flat(chunks) <= old(Source(body).rest) && Allows(body, |Flat(chunks)|)
    ensures sent == |Flat(chunks)| && Sent(chunks, sends)
    ensures res == CloseFailed <==> !closes
    ensures match res
      case Uploaded => Source(body).stalled || Flat(chunks) == old(Source(body).rest)
      case ReadFailed(err) =>
        (err == Failed && Source(body).failed) || (err == TooLarge && !Allows(body, |old(Source(body).rest)|))
      case SendFailed => !sends(|chunks|)
      case CloseFailed => true
    ensures closes && (forall i :: sends(i)) && !Source(body).failed && !Source(body).stalled ==>
      res == if Allows(body, |old(Source(body).rest)|) then Uploaded else ReadFailed(TooLarge)
  {
    ghost var all := Source(body).rest;
    chunks, sent, res := [], 0, Uploaded;
    while true
      invariant Given(body, all, Flat(chunks)) && Allows(body, |Flat(chunks)|) && sent == |Flat(chunks)|
      invariant res == Uploaded && Sent(chunks, sends)
      decreases |Source(body).rest|
    {
      var b, err := ReadBody(body, BUFFER_SIZE, all, Flat(chunks));
      if err != Ok && err != Eof {
        res := ReadFailed(err);
        break;
      }
      if !sends(|chunks|) {
        res := SendFailed;
        break;
      }
      FlatMore(chunks, b);
      SentMore(chunks, sends, b);
      chunks := chunks + [b];
      if |b| == 0 {
        break;
      }
      sent := sent + |b|;
    }
    if !closes {
      res := CloseFailed;
    }
  }
}
