/**
 * The OpenFlow 1.0 exchange that reads a bridge's aggregate flow
 * statistics over its management socket: a Hello (section 5.5.1 of the
 * OpenFlow Switch Specification 1.0.0, header per section 5.1), then a
 * Nicira vendor statistics request for aggregate statistics, whose reply
 * (section 5.3.5, `ofp_aggregate_stats_reply`) carries the packet, byte and
 * flow counts. Every frame is a fixed sequence of big-endian unsigned
 * fields; the socket is a parameter.
 */
module OpenFlow {
  import opened Wrappers

  type Byte = b: int | 0 <= b < 256

  function Pow256(n: nat): (r: nat)
    ensures r >= 1
  {
    if n == 0 then 1 else 256 * Pow256(n - 1)
  }

  // ---------------------------------------------------------------------
  // Big-endian unsigned integers

  /** The big-endian value of a byte string. */
  function ReadBE(bs: seq<Byte>): nat {
    if |bs| == 0 then 0 else ReadBE(bs[..|bs| - 1]) * 256 + bs[|bs| - 1]
  }

  lemma {:induction false} ReadBEBound(bs: seq<Byte>)
    ensures ReadBE(bs) < Pow256(|bs|)
  {
    if |bs| > 0 {
      ReadBEBound(bs[..|bs| - 1]);
    }
  }

  /** The high bytes weigh 256 to the power of the number of low bytes. */
  lemma {:induction false} ReadBEAppend(a: seq<Byte>, b: seq<Byte>)
    ensures ReadBE(a + b) == ReadBE(a) * Pow256(|b|) + ReadBE(b)
    decreases |b|
  {
    if |b| == 0 {
      assert a + b == a;
    } else {
      var c, init, last := a + b, b[..|b| - 1], b[|b| - 1];
      assert c[..|c| - 1] == a + init && c[|c| - 1] == last;
      ReadBEAppend(a, init);
      var x, y, p := ReadBE(a), ReadBE(init), Pow256(|init|);
      assert ReadBE(c) == (x * p + y) * 256 + last;
      assert ReadBE(b) == y * 256 + last;
      assert Pow256(|b|) == 256 * p;
      Shift(x, p, y);
    }
  }

  /** Shifting a two-part value one byte up shifts each part. */
  lemma Shift(x: int, p: int, y: int)
    ensures (x * p + y) * 256 == x * (256 * p) + y * 256
  {
  }


  // ---------------------------------------------------------------------
  // The frames

  type U8 = v: nat | v < 0x100
  type U16 = v: nat | v < 0x1_0000
  type U32 = v: nat | v < 0x1_0000_0000
  type U64 = v: nat | v < 0x1_0000_0000_0000_0000

  const OFP10_VERSION: U8 := 0x01
  const OFPT_HELLO: U8 := 0
  const OFPT10_STATS_REQUEST: U8 := 16
  const OFPT10_STATS_REPLY: U8 := 17
  const NX_VENDOR_ID: U32 := 0x0000_2320
  const OFPP_NONE: U16 := 0xffff
  const OFPTT_ALL: U8 := 0xff
  const OFPST_VENDOR: U16 := 0xffff
  const NXST_AGGREGATE: U32 := 1

  const HELLO_SIZE: nat := 8
  const STATS_MSG_SIZE: nat := 24
  const REQUEST_SIZE: nat := 32
  const REPLY_SIZE: nat := 48

  lemma PowersOf256()
    ensures Pow256(1) == 0x100 && Pow256(2) == 0x1_0000 && Pow256(4) == 0x1_0000_0000
    ensures Pow256(8) == 0x1_0000_0000_0000_0000
  {
    assert Pow256(2) == 0x1_0000;
    assert Pow256(4) == 0x1_0000_0000;
  }

  function U8BE(v: U8): (r: seq<Byte>)
    ensures |r| == 1 && ReadBE(r) == v
  {
    assert ReadBE([v][..0]) == 0;
    [v]
  }

  function U16BE(v: U16): (r: seq<Byte>)
    ensures |r| == 2 && ReadBE(r) == v
  {
    var r := U8BE(v / 0x100) + U8BE(v % 0x100);
    ReadBEAppend(U8BE(v / 0x100), U8BE(v % 0x100));
    r
  }

  function U32BE(v: U32): (r: seq<Byte>)
    ensures |r| == 4 && ReadBE(r) == v
  {
    var r := U16BE(v / 0x1_0000) + U16BE(v % 0x1_0000);
    ReadBEAppend(U16BE(v / 0x1_0000), U16BE(v % 0x1_0000));
    PowersOf256();
    r
  }

  function U64BE(v: U64): (r: seq<Byte>)
    ensures |r| == 8 && ReadBE(r) == v
  {
    var r := U32BE(v / 0x1_0000_0000) + U32BE(v % 0x1_0000_0000);
    ReadBEAppend(U32BE(v / 0x1_0000_0000), U32BE(v % 0x1_0000_0000));
    PowersOf256();
    r
  }

  function Zeros(n: nat): (r: seq<Byte>)
    ensures |r| == n
  {
    seq(n, _ => 0)
  }

  /** `ofp_header`. */
  datatype OfpHeader = OfpHeader(version: U8, msgType: U8, length: U16, xid: U32)

  /** `nicira10_stats_msg`: the header, stats type and flags, vendor and subtype, 4 bytes of padding. */
  datatype StatsMsg = StatsMsg(header: OfpHeader, stat: U16, flags: U16, vendor: U32, subtype: U32)

  /** `nx_aggregate_stats_request`: out port, match length, table id, 3 bytes of padding. */
  datatype AggregateRequest = AggregateRequest(msg: StatsMsg, outPort: U16, matchLen: U16, tableId: U8)

  /** `ofp_aggregate_stats_reply` behind its stats message, then 4 bytes of padding. */
  datatype AggregateReply = AggregateReply(msg: StatsMsg, packetCount: U64, byteCount: U64, flowCount: U32)

  function EncodeHeader(h: OfpHeader): (r: seq<Byte>)
    ensures |r| == HELLO_SIZE
  {
    U8BE(h.version) + U8BE(h.msgType) + U16BE(h.length) + U32BE(h.xid)
  }

  function DecodeHeader(bs: seq<Byte>): OfpHeader
    requires |bs| == HELLO_SIZE
  {
    ReadBEBound(bs[0..1]);
    ReadBEBound(bs[1..2]);
    ReadBEBound(bs[2..4]);
    ReadBEBound(bs[4..8]);
    PowersOf256();
    OfpHeader(ReadBE(bs[0..1]), ReadBE(bs[1..2]), ReadBE(bs[2..4]), ReadBE(bs[4..8]))
  }

  function EncodeStatsMsg(m: StatsMsg): (r: seq<Byte>)
    ensures |r| == STATS_MSG_SIZE
  {
    EncodeHeader(m.header) + U16BE(m.stat) + U16BE(m.flags) + U32BE(m.vendor) + U32BE(m.subtype) + Zeros(4)
  }

  function DecodeStatsMsg(bs: seq<Byte>): StatsMsg
    requires |bs| == STATS_MSG_SIZE
  {
    ReadBEBound(bs[8..10]);
    ReadBEBound(bs[10..12]);
    ReadBEBound(bs[12..16]);
    ReadBEBound(bs[16..20]);
    PowersOf256();
    StatsMsg(DecodeHeader(bs[..8]), ReadBE(bs[8..10]), ReadBE(bs[10..12]), ReadBE(bs[12..16]), ReadBE(bs[16..20]))
  }

  function EncodeRequest(q: AggregateRequest): (r: seq<Byte>)
    ensures |r| == REQUEST_SIZE
  {
    EncodeStatsMsg(q.msg) + U16BE(q.outPort) + U16BE(q.matchLen) + U8BE(q.tableId) + Zeros(3)
  }

  function EncodeReply(p: AggregateReply): (r: seq<Byte>)
    ensures |r| == REPLY_SIZE
  {
    EncodeStatsMsg(p.msg) + U64BE(p.packetCount) + U64BE(p.byteCount) + U32BE(p.flowCount) + Zeros(4)
  }

  /** Reads a 48-byte reply: counts at offsets 24, 32 and 40; the padding is not looked at. */
  function DecodeReply(bs: seq<Byte>): AggregateReply
    requires |bs| == REPLY_SIZE
  {
    ReadBEBound(bs[24..32]);
    ReadBEBound(bs[32..40]);
    ReadBEBound(bs[40..44]);
    PowersOf256();
    AggregateReply(DecodeStatsMsg(bs[..24]), ReadBE(bs[24..32]), ReadBE(bs[32..40]), ReadBE(bs[40..44]))
  }

  /** The parts of a five-part concatenation are its slices at the running lengths. */
  lemma Slices(a: seq<Byte>, b: seq<Byte>, c: seq<Byte>, d: seq<Byte>, e: seq<Byte>)
    ensures var s := a + b + c + d + e;
            var i, j, k := |a| + |b|, |a| + |b| + |c|, |a| + |b| + |c| + |d|;
            s[..|a|] == a && s[|a|..i] == b && s[i..j] == c && s[j..k] == d && s[k..] == e
  {
  }

  lemma HeaderRoundTrip(h: OfpHeader)
    ensures DecodeHeader(EncodeHeader(h)) == h
  {
    Slices(U8BE(h.version), U8BE(h.msgType), U16BE(h.length), U32BE(h.xid), []);
    var bs := EncodeHeader(h);
    assert bs + [] == bs;
  }

  lemma StatsMsgRoundTrip(m: StatsMsg)
    ensures DecodeStatsMsg(EncodeStatsMsg(m)) == m
  {
    var bs := EncodeStatsMsg(m);
    HeaderRoundTrip(m.header);
    var a := EncodeHeader(m.header) + U16BE(m.stat);
    Slices(a, U16BE(m.flags), U32BE(m.vendor), U32BE(m.subtype), Zeros(4));
    assert bs[..10] == a;
    assert bs[..8] == a[..8] && bs[8..10] == a[8..10];
  }

  /** Decoding an encoded reply recovers it exactly, header and counts alike. */
  lemma ReplyRoundTrip(p: AggregateReply)
    ensures DecodeReply(EncodeReply(p)) == p
  {
    StatsMsgRoundTrip(p.msg);
    Slices(EncodeStatsMsg(p.msg), U64BE(p.packetCount), U64BE(p.byteCount), U32BE(p.flowCount), Zeros(4));
  }

  /** The reply's counts depend on bytes 24 to 43 only: the header and padding are not validated. */
  lemma ReplyCountsOnly(a: seq<Byte>, b: seq<Byte>)
    requires |a| == |b| == REPLY_SIZE && a[24..44] == b[24..44]
    ensures DecodeReply(a).packetCount == DecodeReply(b).packetCount
    ensures DecodeReply(a).byteCount == DecodeReply(b).byteCount
    ensures DecodeReply(a).flowCount == DecodeReply(b).flowCount
  {
    assert forall k :: 24 <= k < 44 ==> a[k] == a[24..44][k - 24] == b[24..44][k - 24] == b[k];
    assert a[24..32] == b[24..32];
    assert a[32..40] == b[32..40];
    assert a[40..44] == b[40..44];
  }

  /** The Hello the exporter sends: version 1, its own length, xid 1. */
  const Hello: OfpHeader := OfpHeader(OFP10_VERSION, OFPT_HELLO, HELLO_SIZE, 1)

  /** The aggregate statistics request: vendor stats of Nicira, all ports, all tables, an empty match. */
  const Request: AggregateRequest :=
    AggregateRequest(StatsMsg(OfpHeader(OFP10_VERSION, OFPT10_STATS_REQUEST, REQUEST_SIZE, 1),
                              OFPST_VENDOR, 0, NX_VENDOR_ID, NXST_AGGREGATE),
                     OFPP_NONE, 0, OFPTT_ALL)

  /** The Hello is exactly these 8 bytes. */
  lemma HelloEncoding()
    ensures EncodeHeader(Hello) == [0x01, 0x00, 0x00, 0x08, 0x00, 0x00, 0x00, 0x01]
  {
  }

  /** The request is exactly these 32 bytes. */
  lemma RequestEncoding()
    ensures EncodeRequest(Request) ==
      [0x01, 0x10, 0x00, 0x20, 0x00, 0x00, 0x00, 0x01,
       0xff, 0xff, 0x00, 0x00, 0x00, 0x00, 0x23, 0x20, 0x00, 0x00, 0x00, 0x01, 0x00, 0x00, 0x00, 0x00,
       0xff, 0xff, 0x00, 0x00, 0xff, 0x00, 0x00, 0x00]
  {
    RequestLayout(Request);
  }

  /** In both requests the length field is the encoded size. */
  lemma LengthFields()
    ensures Hello.length == |EncodeHeader(Hello)|
    ensures Request.msg.header.length == |EncodeRequest(Request)|
  {
  }

  lemma U8Bytes(v: U8)
    ensures U8BE(v) == [v]
  {
  }

  lemma U16Bytes(v: U16)
    ensures U16BE(v) == [v / 0x100, v % 0x100]
  {
  }

  lemma U32Bytes(v: U32)
    ensures U32BE(v) == [v / 0x100_0000, v / 0x1_0000 % 0x100, v / 0x100 % 0x100, v % 0x100]
  {
    var hi := v / 0x1_0000;
    var lo := v % 0x1_0000;
    U16Bytes(hi);
    U16Bytes(lo);
    var d, w := v % 0x100, v / 0x100;
    var c, w2 := w % 0x100, w / 0x100;
    assert v == w2 * 0x1_0000 + (c * 0x100 + d);
    assert hi == w2 && lo == c * 0x100 + d;
    assert lo / 0x100 == c && lo % 0x100 == d;
    assert v == (w2 / 0x100) * 0x100_0000 + ((w2 % 0x100) * 0x1_0000 + c * 0x100 + d);
  }

  /** Every request, byte by byte. */
  lemma RequestLayout(q: AggregateRequest)
    ensures var h := q.msg.header;
            var m := q.msg;
            EncodeRequest(q) ==
              [h.version, h.msgType] + U16BE(h.length) + U32BE(h.xid)
              + U16BE(m.stat) + U16BE(m.flags) + U32BE(m.vendor) + U32BE(m.subtype) + [0, 0, 0, 0]
              + U16BE(q.outPort) + U16BE(q.matchLen) + [q.tableId, 0, 0, 0]
  {
    var h := q.msg.header;
    U8Bytes(h.version);
    U8Bytes(h.msgType);
    U8Bytes(q.tableId);
    assert Zeros(4) == [0, 0, 0, 0];
    assert Zeros(3) == [0, 0, 0];
  }

  // ---------------------------------------------------------------------
  // The exchange

  /**
   * The management socket of a bridge: `<bridge>.mgmt` in the run
   * directory, joined by exactly one separator the way filepath.Join
   * joins an already clean directory.
   */
  function SocketPath(rundir: string, bridge: string): (p: string)
    ensures |p| >= |bridge| + 5 && p[|p| - |bridge| - 5..] == bridge + ".mgmt"
    ensures |rundir| == 0 ==> p == bridge + ".mgmt"
    ensures |rundir| > 0 && rundir[|rundir| - 1] == '/' ==> p == rundir + bridge + ".mgmt"
    ensures |rundir| > 0 && rundir[|rundir| - 1] != '/' ==> p == rundir + "/" + bridge + ".mgmt"
  {
    var file := bridge + ".mgmt";
    if |rundir| == 0 then file
    else if rundir[|rundir| - 1] == '/' then rundir + file
    else rundir + "/" + file
  }

  /**
   * The socket as the exporter sees it: how many writes succeed before one
   * fails, and the bytes the switch sends back.
   */
  datatype Socket = Socket(writesAccepted: nat, incoming: seq<Byte>)

  datatype ExchangeError = DialFailed(reason: string) | WriteFailed | ShortRead

  /** The counts of a bridge, as BridgeStats keeps them. */
  datatype BridgeStats = BridgeStats(name: string, packets: nat, bytes: nat, flows: nat)

  /** What the exchange leaves behind: the stats, the bytes written, and the error if any. */
  datatype Exchange = Exchange(stats: BridgeStats, sent: seq<Byte>, err: Option<ExchangeError>)

  /**
   * GetAggregateStats: dial the bridge's socket, send a Hello and read an
   * 8-byte answer (ignored), send the request and read a 48-byte reply,
   * then store its counts. Any failure returns its error and leaves the
   * counts as they were.
   */
  function GetAggregateStats(s: BridgeStats, rundir: string, dial: string -> Result<Socket, string>): (x: Exchange)
    ensures x.stats.name == s.name
    ensures x.err.Some? ==> x.stats == s
    ensures x.err.None? ==> x.sent == EncodeHeader(Hello) + EncodeRequest(Request)
  {
    match dial(SocketPath(rundir, s.name))
    case Failure(e) => Exchange(s, [], Some(DialFailed(e)))
    case Success(sock) =>
      var hello := EncodeHeader(Hello);
      var request := EncodeRequest(Request);
      if sock.writesAccepted < 1 then Exchange(s, [], Some(WriteFailed))
      else if |sock.incoming| < HELLO_SIZE then Exchange(s, hello, Some(ShortRead))
      else if sock.writesAccepted < 2 then Exchange(s, hello, Some(WriteFailed))
      else if |sock.incoming| < HELLO_SIZE + REPLY_SIZE then Exchange(s, hello + request, Some(ShortRead))
      else
        var r := DecodeReply(sock.incoming[HELLO_SIZE..HELLO_SIZE + REPLY_SIZE]);
        Exchange(BridgeStats(s.name, r.packetCount, r.byteCount, r.flowCount), hello + request, None)
  }

  /** A switch that answers the Hello with any 8 bytes and the request with a reply yields that reply's counts. */
  lemma GetAggregateStatsOfReply(s: BridgeStats, rundir: string, dial: string -> Result<Socket, string>,
                                 hello: seq<Byte>, reply: AggregateReply, rest: seq<Byte>, writes: nat)
    requires |hello| == HELLO_SIZE && writes >= 2
    requires dial(SocketPath(rundir, s.name)) == Success(Socket(writes, hello + EncodeReply(reply) + rest))
    ensures GetAggregateStats(s, rundir, dial) ==
            Exchange(BridgeStats(s.name, reply.packetCount, reply.byteCount, reply.flowCount),
                     EncodeHeader(Hello) + EncodeRequest(Request), None)
  {
    var incoming := hello + EncodeReply(reply) + rest;
    assert incoming[HELLO_SIZE..HELLO_SIZE + REPLY_SIZE] == EncodeReply(reply);
    ReplyRoundTrip(reply);
  }

  /** Fewer than 56 bytes from the switch is an error, and the counts are kept. */
  lemma GetAggregateStatsShort(s: BridgeStats, rundir: string, dial: string -> Result<Socket, string>)
    requires dial(SocketPath(rundir, s.name)).Success?
    requires |dial(SocketPath(rundir, s.name)).value.incoming| < HELLO_SIZE + REPLY_SIZE
    ensures GetAggregateStats(s, rundir, dial).err.Some?
    ensures GetAggregateStats(s, rundir, dial).stats == s
  {
    var sock := dial(SocketPath(rundir, s.name)).value;
    assert sock.writesAccepted < 2 || |sock.incoming| < HELLO_SIZE + REPLY_SIZE;
  }
}
