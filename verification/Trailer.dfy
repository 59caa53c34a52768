/** The configuration stamped onto the end of the agent's own executable:
    image, JSON body, the body's length as four little-endian bytes, magic. */
module Trailer {
  import opened Common

  type Byte = b: int | 0 <= b < 256
  type Bytes = seq<Byte>

  // "WORDEYE-CFG-v1" and two zero bytes.
  const MAGIC: Bytes := [0x57, 0x4F, 0x52, 0x44, 0x45, 0x59, 0x45, 0x2D, 0x43, 0x46, 0x47, 0x2D, 0x76, 0x31, 0, 0]
  const TRAILER := 20         // the length and the magic
  const MAX_CONFIG := 65536

  // more stands for the fields that are only carried.
  datatype Config = Config(server: string, token: string, more: string)

  datatype Codec = Codec(marshal: Config -> Bytes, unmarshal: Bytes -> Option<Config>)

  // What the JSON library promises: what it writes is not empty and reads back.
  ghost predicate Inverse(k: Codec) {
    forall c {:trigger k.marshal(c)} :: k.marshal(c) != [] && k.unmarshal(k.marshal(c)) == Some(c)
  }

  predicate Validates(c: Config) {
    c.server != "" && c.token != ""
  }

  // ---------------------------------------------------------------------
  // The length field
  // ---------------------------------------------------------------------

  function Put32(n: nat): Bytes {
    [n % 256, n / 256 % 256, n / 65536 % 256, n / 16777216 % 256]
  }

  function Get32(b: Bytes): nat
    requires |b| == 4
  {
    b[0] as int + 256 * b[1] as int + 65536 * b[2] as int + 16777216 * b[3] as int
  }

  lemma GetAfterPut(n: nat)
    requires n < 4294967296
    ensures Get32(Put32(n)) == n
  {
    var a, b, c := n / 256, n / 65536, n / 16777216;
    assert n == 256 * a + n % 256;
    assert a / 256 == b && b / 256 == c;
    assert a == 256 * b + a % 256;
    assert b == 256 * c + b % 256;
  }

  lemma PutAfterGet(b: Bytes)
    requires |b| == 4
    ensures Put32(Get32(b)) == b
  {
    var n3: nat := b[3];
    var n2 := b[2] + 256 * n3;
    var n1 := b[1] + 256 * n2;
    var n := b[0] + 256 * n1;
    assert n == Get32(b);
    assert n / 256 == n1 && n1 / 256 == n2 && n2 / 256 == n3;
    assert n / 65536 == n2 && n / 16777216 == n3;
  }

  // ---------------------------------------------------------------------
  // Stamping and parsing
  // ---------------------------------------------------------------------

  function Stamped(image: Bytes, body: Bytes): Bytes {
    image + body + Put32(|body|) + MAGIC
  }

  // Where the body lies, if b ends in a trailer whose length makes sense.
  function Body(b: Bytes): Option<Bytes> {
    if |b| < TRAILER || b[|b| - 16..] != MAGIC then None
    else
      var lenOff := |b| - TRAILER;
      var n := Get32(b[lenOff..lenOff + 4]);
      if n <= 0 || n > MAX_CONFIG || lenOff - n < 0 then None else Some(b[lenOff - n..lenOff])
  }

  function Parse(k: Codec, b: Bytes): Option<Config> {
    if Body(b).None? then None else k.unmarshal(Body(b).value)
  }

  datatype Error = Fine | NotValid | AlreadyStamped | TooLarge | WriteFailed

  // What of b there is room for.
  function Cut(b: Bytes, room: nat): Bytes {
    if |b| <= room then b else b[..room]
  }

  // Writing on after a write that fitted, and stopping at one that did not.
  lemma CutGoesOn(base: Bytes, done: Bytes, b: Bytes, room: nat)
    requires |done| <= room
    ensures base + done + Cut(b, room - |done|) == base + Cut(done + b, room)
  {
  }

  lemma CutStops(done: Bytes, rest: Bytes, room: nat)
    requires |done| > room
    ensures Cut(done + rest, room) == Cut(done, room)
  {
  }

  // Something written to that can run out of room, in the middle of a write too.
  class Writer {
    var out: Bytes
    var room: nat

    constructor (room: nat)
      ensures out == [] && this.room == room
    {
      out, this.room := [], room;
    }

    method Write(b: Bytes) returns (ok: bool)
      modifies this
      ensures ok == (|b| <= old(room))
      ensures out == old(out) + Cut(b, old(room))
      ensures room == if ok then old(room) - |b| else 0
    {
      if |b| <= room {
        out, room := out + b, room - |b|;
        return true;
      }
      out, room := out + b[..room], 0;
      return false;
    }
  }

  // What stops a stamp before anything is written.
  function Refusal(k: Codec, src: Bytes, cfg: Config): Error {
    if !Validates(cfg) then NotValid
    else if Parse(k, src).Some? then AlreadyStamped
    else if |k.marshal(cfg)| > MAX_CONFIG then TooLarge
    else Fine
  }

  /** Either nothing is written, or the whole stamped image, or what there was room for. */
  method Stamp(k: Codec, w: Writer, src: Bytes, cfg: Config) returns (e: Error)
    modifies w
    ensures e == NotValid <==> cfg.server == "" || cfg.token == ""
    ensures Refusal(k, src, cfg) != Fine ==> e == Refusal(k, src, cfg) && w.out == old(w.out)
    ensures Refusal(k, src, cfg) == Fine ==>
              var all := Stamped(src, k.marshal(cfg));
              && w.out == old(w.out) + Cut(all, old(w.room))
              && e == if |all| <= old(w.room) then Fine else WriteFailed
  {
    if cfg.server == "" || cfg.token == "" { return NotValid; }
    if Parse(k, src).Some? { return AlreadyStamped; }
    var body := k.marshal(cfg);
    if |body| > MAX_CONFIG { return TooLarge; }
    e := WriteParts(w, src, body, Put32(|body|), MAGIC);
  }

  method WriteParts(w: Writer, a: Bytes, b: Bytes, c: Bytes, d: Bytes) returns (e: Error)
    modifies w
    ensures w.out == old(w.out) + Cut(a + b + c + d, old(w.room))
    ensures e == if |a + b + c + d| <= old(w.room) then Fine else WriteFailed
  {
    ghost var was, room := w.out, w.room;
    var ok := w.Write(a);
    if !ok {
      CutStops(a, b, room);
      CutStops(a + b, c, room);
      CutStops(a + b + c, d, room);
      return WriteFailed;
    }
    ok := w.Write(b);
    CutGoesOn(was, a, b, room);
    if !ok {
      CutStops(a + b, c, room);
      CutStops(a + b + c, d, room);
      return WriteFailed;
    }
    ok := w.Write(c);
    CutGoesOn(was, a + b, c, room);
    if !ok {
      CutStops(a + b + c, d, room);
      return WriteFailed;
    }
    ok := w.Write(d);
    CutGoesOn(was, a + b + c, d, room);
    return if ok then Fine else WriteFailed;
  }

  // The executable's tail is all that is read.
  function Tail(b: Bytes): Bytes {
    if |b| > MAX_CONFIG + TRAILER then b[|b| - (MAX_CONFIG + TRAILER)..] else b
  }

  datatype Loaded = Plain | Unusable | Enrol(cfg: Config)

  method Load(k: Codec, exe: Bytes) returns (r: Loaded)
    ensures r == match Parse(k, exe)
                 case None => Plain
                 case Some(c) => if Validates(c) then Enrol(c) else Unusable
    ensures r.Enrol? ==> r.cfg.server != "" && r.cfg.token != ""
    ensures r.Unusable? ==> Parse(k, exe).Some? && (Parse(k, exe).value.server == "" || Parse(k, exe).value.token == "")
  {
    TailIsEnough(k, exe);
    if |exe| < TRAILER { return Plain; }
    var tail := MAX_CONFIG + TRAILER;
    if tail > |exe| { tail := |exe|; }
    assert exe[|exe| - tail..] == Tail(exe);
    var cfg := Parse(k, exe[|exe| - tail..]);
    if cfg.None? { return Plain; }
    if cfg.value.server == "" || cfg.value.token == "" { return Unusable; }
    return Enrol(cfg.value);
  }

  // ---------------------------------------------------------------------
  // Laws
  // ---------------------------------------------------------------------

  ghost predicate FitsField(body: Bytes) {
    0 < |body| <= MAX_CONFIG
  }

  lemma BodyOfStamped(image: Bytes, body: Bytes)
    requires FitsField(body)
    ensures Body(Stamped(image, body)) == Some(body)
  {
    var b := Stamped(image, body);
    var lenOff := |b| - TRAILER;
    assert b[|b| - 16..] == MAGIC;
    assert b[lenOff..lenOff + 4] == Put32(|body|);
    GetAfterPut(|body|);
    assert b[lenOff - |body|..lenOff] == body;
  }

  lemma StampedOfBody(b: Bytes)
    requires Body(b).Some?
    ensures FitsField(Body(b).value)
    ensures b == Stamped(b[..|b| - TRAILER - |Body(b).value|], Body(b).value)
  {
    var lenOff := |b| - TRAILER;
    var n := Get32(b[lenOff..lenOff + 4]);
    PutAfterGet(b[lenOff..lenOff + 4]);
    assert b == b[..lenOff - n] + b[lenOff - n..lenOff] + b[lenOff..lenOff + 4] + b[|b| - 16..];
  }

  /** A body is found exactly in what stamping can make, and is then that body. */
  lemma BodyIsExact(b: Bytes, body: Bytes)
    ensures Body(b) == Some(body) <==> FitsField(body) && exists image :: b == Stamped(image, body)
  {
    if Body(b) == Some(body) { StampedOfBody(b); }
    if FitsField(body) {
      forall image | b == Stamped(image, body) ensures Body(b) == Some(body) {
        BodyOfStamped(image, body);
      }
    }
  }

  // Byte number i of n, the least significant first.
  function ByteOf(n: nat, i: nat): nat {
    if i == 0 then n % 256 else ByteOf(n / 256, i - 1)
  }

  /** A stamped image is the image and the body; then the body's length, its lowest byte first;
      then the fourteen characters of the magic word and two zeros. */
  lemma LayoutIsFixed(image: Bytes, body: Bytes)
    ensures var all, n := Stamped(image, body), |image| + |body|;
            && |all| == n + 20 && all[..|image|] == image && all[|image|..n] == body
            && (forall i :: 0 <= i < 4 ==> all[n + i] == ByteOf(|body|, i))
            && (forall i :: 0 <= i < 14 ==> all[n + 4 + i] == "WORDEYE-CFG-v1"[i] as int)
            && all[n + 18] == 0 && all[n + 19] == 0
  {
    var all, n := Stamped(image, body), |image| + |body|;
    var len := |body|;
    assert all[n..n + 4] == Put32(len) && all[n + 4..] == MAGIC;
    assert len / 256 / 256 == len / 65536 && len / 65536 / 256 == len / 16777216;
    forall i | 0 <= i < 4
      ensures all[n + i] == ByteOf(len, i)
    {
      assert all[n + i] == all[n..n + 4][i];
      LowBytes(len);
    }
    forall i | 0 <= i < 14
      ensures all[n + 4 + i] == "WORDEYE-CFG-v1"[i] as int
    {
      assert all[n + 4 + i] == all[n + 4..][i] == MAGIC[i];
    }
    assert all[n + 18] == all[n + 4..][14] && all[n + 19] == all[n + 4..][15];
  }

  lemma LowBytes(n: nat)
    ensures ByteOf(n, 0) == n % 256 && ByteOf(n, 1) == n / 256 % 256
    ensures ByteOf(n, 2) == n / 256 / 256 % 256 && ByteOf(n, 3) == n / 256 / 256 / 256 % 256
  {
    assert ByteOf(n, 1) == ByteOf(n / 256, 0);
    assert ByteOf(n, 2) == ByteOf(n / 256, 1) == ByteOf(n / 256 / 256, 0);
    assert ByteOf(n, 3) == ByteOf(n / 256, 2) == ByteOf(n / 256 / 256, 1) == ByteOf(n / 256 / 256 / 256, 0);
  }

  /** A stamped configuration reads back, and the image before it is untouched. */
  lemma RoundTrip(k: Codec, src: Bytes, cfg: Config)
    requires Inverse(k) && Refusal(k, src, cfg) == Fine
    ensures var out := Stamped(src, k.marshal(cfg));
            Parse(k, out) == Some(cfg) && out[..|src|] == src
  {
    BodyOfStamped(src, k.marshal(cfg));
  }

  /** What has been stamped is never stamped again, whatever the second configuration. */
  lemma SecondStampIsRefused(k: Codec, src: Bytes, cfg: Config, again: Config)
    requires Inverse(k) && Refusal(k, src, cfg) == Fine
    ensures Refusal(k, Stamped(src, k.marshal(cfg)), again) == if Validates(again) then AlreadyStamped else NotValid
  {
    RoundTrip(k, src, cfg);
  }

  lemma LongerImage(front: Bytes, image: Bytes, body: Bytes)
    ensures front + Stamped(image, body) == Stamped(front + image, body)
  {
  }

  lemma BodyBehindFront(front: Bytes, t: Bytes)
    requires Body(t).Some?
    ensures Body(front + t) == Body(t)
  {
    var body := Body(t).value;
    var image := t[..|t| - TRAILER - |body|];
    StampedOfBody(t);
    LongerImage(front, image, body);
    BodyOfStamped(front + image, body);
  }

  lemma ShorterImage(image: Bytes, body: Bytes, d: nat)
    requires d <= |image|
    ensures Stamped(image, body)[d..] == Stamped(image[d..], body)
  {
    assert image == image[..d] + image[d..];
    LongerImage(image[..d], image[d..], body);
  }

  lemma ShorterParses(b: Bytes, image: Bytes, body: Bytes, d: nat)
    requires FitsField(body) && b == Stamped(image, body) && d <= |image|
    ensures Body(b[d..]) == Some(body)
  {
    ShorterImage(image, body, d);
    BodyOfStamped(image[d..], body);
  }

  lemma BodyIsInTail(b: Bytes, body: Bytes)
    requires Body(b) == Some(body)
    ensures Body(Tail(b)) == Some(body)
  {
    StampedOfBody(b);
    ShorterParses(b, b[..|b| - TRAILER - |body|], body, |b| - |Tail(b)|);
  }

  /** Parsing the tail is parsing the file. */
  lemma TailIsEnough(k: Codec, b: Bytes)
    ensures Parse(k, Tail(b)) == Parse(k, b)
  {
    if Body(b).Some? { BodyIsInTail(b, Body(b).value); }
    if Body(Tail(b)).Some? {
      assert b == b[..|b| - |Tail(b)|] + Tail(b);
      BodyBehindFront(b[..|b| - |Tail(b)|], Tail(b));
    }
  }
}
