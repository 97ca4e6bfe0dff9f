/**
 * Conversions between the internal LiDAR messages (points, scan, packet) and
 * their wire records. Every value is copied, never computed, so a float is
 * carried as its bit pattern and no floating-point arithmetic appears.
 */
module ProtoMsgTranslator {

  /** Size in bytes of one raw sensor packet. */
  const PACKET_SIZE: nat := 1248

  /** A single-precision float, kept as its 32-bit pattern. */
  datatype Float32 = Float32(bits: bv32)

  /** A double-precision float (the timestamps), kept as its 64-bit pattern. */
  datatype Float64 = Float64(bits: bv64)

  datatype PointXYZI = PointXYZI(x: Float32, y: Float32, z: Float32, intensity: Float32)

  /** The point-cloud container: its points and the metadata it carries itself. */
  datatype PointCloud = PointCloud(points: seq<PointXYZI>, height: int, width: int, isDense: bool)

  /** The internal points message: eleven header fields and the cloud. */
  datatype LidarPointsMsg = LidarPointsMsg(
    timestamp: Float64,
    seqNum: int,
    parentFrameId: string,
    frameId: string,
    isMotionCorrect: bool,
    height: int,
    width: int,
    isDense: bool,
    isTransform: bool,
    lidarModel: int,
    pointsType: int,
    cloud: PointCloud)

  /** The wire points record: the same eleven fields and a flat float list. */
  datatype ProtoLidarPoints = ProtoLidarPoints(
    timestamp: Float64,
    seqNum: int,
    parentFrameId: string,
    frameId: string,
    isMotionCorrect: bool,
    height: int,
    width: int,
    isDense: bool,
    isTransform: bool,
    lidarModel: int,
    pointsType: int,
    data: seq<Float32>)

  type PacketBytes = s: seq<bv8> | |s| == PACKET_SIZE witness Zeros(PACKET_SIZE)

  /** `n` zero bytes. */
  function Zeros(n: nat): (r: seq<bv8>)
    ensures |r| == n && forall j :: 0 <= j < n ==> r[j] == 0
  {
    if n == 0 then [] else Zeros(n - 1) + [0]
  }

  datatype LidarPacketMsg = LidarPacketMsg(timestamp: Float64, packet: PacketBytes)

  datatype LidarScanMsg = LidarScanMsg(timestamp: Float64, seqNum: int, packets: seq<LidarPacketMsg>)

  /** The wire packet record; its payload is a byte string of any length. */
  datatype ProtoLidarPacket = ProtoLidarPacket(timestamp: Float64, data: seq<bv8>)

  /** The wire scan record: one byte string per packet. */
  datatype ProtoLidarScan = ProtoLidarScan(timestamp: Float64, seqNum: int, data: seq<seq<bv8>>)

  /** The timestamp of a default-constructed packet message. */
  const DEFAULT_TIMESTAMP: Float64 := Float64(0)

  /** The payload of a default-constructed packet message. */
  const DEFAULT_PACKET: PacketBytes := Zeros(PACKET_SIZE)

  /** The eleven header fields of `m` and `p` agree. */
  predicate SameHeader(m: LidarPointsMsg, p: ProtoLidarPoints) {
    && m.timestamp == p.timestamp
    && m.seqNum == p.seqNum
    && m.parentFrameId == p.parentFrameId
    && m.frameId == p.frameId
    && m.isMotionCorrect == p.isMotionCorrect
    && m.height == p.height
    && m.width == p.width
    && m.isDense == p.isDense
    && m.isTransform == p.isTransform
    && m.lidarModel == p.lidarModel
    && m.pointsType == p.pointsType
  }

  // ---------------------------------------------------------------- points

  /** Point i lands at entries 4i .. 4i+3 as x, y, z, intensity. */
  function Flatten(ps: seq<PointXYZI>): (r: seq<Float32>)
    ensures |r| == 4 * |ps|
    ensures forall i :: 0 <= i < |ps| ==>
      r[4 * i] == ps[i].x && r[4 * i + 1] == ps[i].y &&
      r[4 * i + 2] == ps[i].z && r[4 * i + 3] == ps[i].intensity
  {
    if ps == [] then []
    else
      var rest := Flatten(ps[1..]);
      assert forall i :: 1 <= i < |ps| ==> ps[i] == ps[1..][i - 1];
      [ps[0].x, ps[0].y, ps[0].z, ps[0].intensity] + rest
  }

  /** Each consecutive group of four entries becomes one point, in order. */
  function Regroup(d: seq<Float32>): (r: seq<PointXYZI>)
    requires |d| % 4 == 0
    ensures 4 * |r| == |d|
    ensures forall i :: 0 <= i < |r| ==>
      r[i] == PointXYZI(d[4 * i], d[4 * i + 1], d[4 * i + 2], d[4 * i + 3])
  {
    if d == [] then []
    else
      var rest := Regroup(d[4..]);
      [PointXYZI(d[0], d[1], d[2], d[3])] + rest
  }

  lemma RegroupFlatten(ps: seq<PointXYZI>)
    ensures Regroup(Flatten(ps)) == ps
  {
    var r := Regroup(Flatten(ps));
    assert |r| == |ps|;
    forall i | 0 <= i < |ps| ensures r[i] == ps[i] { }
  }

  lemma {:induction false} FlattenRegroup(d: seq<Float32>)
    requires |d| % 4 == 0
    ensures Flatten(Regroup(d)) == d
  {
    if d != [] {
      var ps := Regroup(d);
      assert ps == [PointXYZI(d[0], d[1], d[2], d[3])] + Regroup(d[4..]);
      assert ps[1..] == Regroup(d[4..]);
      FlattenRegroup(d[4..]);
      assert d == d[..4] + d[4..];
    }
  }

  /** Wire form of a points message: header copied, points flattened. */
  function ToProtoPoints(m: LidarPointsMsg): (p: ProtoLidarPoints)
    ensures SameHeader(m, p)
    ensures |p.data| == 4 * |m.cloud.points|
    ensures Regroup(p.data) == m.cloud.points
  {
    RegroupFlatten(m.cloud.points);
    ProtoLidarPoints(m.timestamp, m.seqNum, m.parentFrameId, m.frameId, m.isMotionCorrect,
                     m.height, m.width, m.isDense, m.isTransform, m.lidarModel, m.pointsType,
                     Flatten(m.cloud.points))
  }

  /**
   * Internal form of a wire points record: header copied back, the cloud's
   * metadata taken from the header, the flat list regrouped into points.
   * Regrouping reads four entries per step, so the list length must be a
   * multiple of four.
   */
  function ToRsPoints(p: ProtoLidarPoints): (m: LidarPointsMsg)
    requires |p.data| % 4 == 0
    ensures SameHeader(m, p)
    ensures m.cloud.height == p.height && m.cloud.width == p.width && m.cloud.isDense == p.isDense
    ensures 4 * |m.cloud.points| == |p.data|
    ensures Flatten(m.cloud.points) == p.data
  {
    FlattenRegroup(p.data);
    var cloud := PointCloud(Regroup(p.data), p.height, p.width, p.isDense);
    LidarPointsMsg(p.timestamp, p.seqNum, p.parentFrameId, p.frameId, p.isMotionCorrect,
                   p.height, p.width, p.isDense, p.isTransform, p.lidarModel, p.pointsType,
                   cloud)
  }

  /**
   * Decoding an encoded points message gives back the header and every point;
   * the cloud's own metadata is rebuilt from the header fields.
   */
  lemma PointsRoundTrip(m: LidarPointsMsg)
    ensures |ToProtoPoints(m).data| % 4 == 0
    ensures ToRsPoints(ToProtoPoints(m))
         == m.(cloud := PointCloud(m.cloud.points, m.height, m.width, m.isDense))
  {
  }

  /** When the cloud's metadata agrees with the header, the round trip is exact. */
  lemma PointsRoundTripExact(m: LidarPointsMsg)
    requires m.cloud.height == m.height && m.cloud.width == m.width && m.cloud.isDense == m.isDense
    ensures |ToProtoPoints(m).data| % 4 == 0
    ensures ToRsPoints(ToProtoPoints(m)) == m
  {
    PointsRoundTrip(m);
  }

  /** Encoding a decoded wire record gives back the same record. */
  lemma ProtoPointsRoundTrip(p: ProtoLidarPoints)
    requires |p.data| % 4 == 0
    ensures ToProtoPoints(ToRsPoints(p)) == p
  {
  }

  // --------------------------------------------------------------- packets

  /**
   * A default packet payload whose first |src| bytes are overwritten with
   * `src`; the rest keeps the default bytes. The copy is unbounded in the
   * source, so `src` must fit.
   */
  function CopyPayload(src: seq<bv8>): (r: PacketBytes)
    requires |src| <= PACKET_SIZE
    ensures r[..|src|] == src
    ensures forall j :: |src| <= j < PACKET_SIZE ==> r[j] == DEFAULT_PACKET[j]
  {
    src + DEFAULT_PACKET[|src|..]
  }

  lemma CopyFullPayload(src: PacketBytes)
    ensures CopyPayload(src) == src
  {
    assert CopyPayload(src)[..|src|] == CopyPayload(src);
  }

  function ToProtoPacket(m: LidarPacketMsg): (p: ProtoLidarPacket)
    ensures p.timestamp == m.timestamp
    ensures |p.data| == PACKET_SIZE && p.data == m.packet
  {
    ProtoLidarPacket(m.timestamp, m.packet)
  }

  function ToRsPacket(p: ProtoLidarPacket): (m: LidarPacketMsg)
    requires |p.data| <= PACKET_SIZE
    ensures m.timestamp == p.timestamp
    ensures m.packet[..|p.data|] == p.data
    ensures forall j :: |p.data| <= j < PACKET_SIZE ==> m.packet[j] == DEFAULT_PACKET[j]
  {
    LidarPacketMsg(p.timestamp, CopyPayload(p.data))
  }

  /** A packet survives encode then decode with its timestamp and all 1248 bytes. */
  lemma PacketRoundTrip(m: LidarPacketMsg)
    ensures ToRsPacket(ToProtoPacket(m)) == m
  {
    CopyFullPayload(m.packet);
  }

  // ------------------------------------------------------------------ scan

  /** One 1248-byte entry per packet, in order. */
  function Payloads(ps: seq<LidarPacketMsg>): (r: seq<seq<bv8>>)
    ensures |r| == |ps|
    ensures forall i :: 0 <= i < |ps| ==> r[i] == ps[i].packet && |r[i]| == PACKET_SIZE
  {
    if ps == [] then [] else Payloads(ps[..|ps| - 1]) + [ps[|ps| - 1].packet]
  }

  /** One default-stamped packet per entry, in order, each payload copied in. */
  function Unpack(d: seq<seq<bv8>>): (r: seq<LidarPacketMsg>)
    requires forall i :: 0 <= i < |d| ==> |d[i]| <= PACKET_SIZE
    ensures |r| == |d|
    ensures forall i :: 0 <= i < |d| ==>
      r[i].timestamp == DEFAULT_TIMESTAMP && r[i].packet[..|d[i]|] == d[i] &&
      (forall j :: |d[i]| <= j < PACKET_SIZE ==> r[i].packet[j] == DEFAULT_PACKET[j])
  {
    if d == [] then []
    else
      var last := d[|d| - 1];
      Unpack(d[..|d| - 1]) + [ToRsPacket(ProtoLidarPacket(DEFAULT_TIMESTAMP, last))]
  }

  function ToProtoScan(m: LidarScanMsg): (p: ProtoLidarScan)
    ensures p.timestamp == m.timestamp && p.seqNum == m.seqNum
    ensures |p.data| == |m.packets|
    ensures forall i :: 0 <= i < |p.data| ==> |p.data[i]| == PACKET_SIZE && p.data[i] == m.packets[i].packet
  {
    ProtoLidarScan(m.timestamp, m.seqNum, Payloads(m.packets))
  }

  function ToRsScan(p: ProtoLidarScan): (m: LidarScanMsg)
    requires forall i :: 0 <= i < |p.data| ==> |p.data[i]| <= PACKET_SIZE
    ensures m.timestamp == p.timestamp && m.seqNum == p.seqNum
    ensures |m.packets| == |p.data|
    ensures forall i :: 0 <= i < |p.data| ==>
      m.packets[i].timestamp == DEFAULT_TIMESTAMP && m.packets[i].packet[..|p.data[i]|] == p.data[i]
  {
    LidarScanMsg(p.timestamp, p.seqNum, Unpack(p.data))
  }

  /**
   * A scan survives encode then decode with its timestamp, sequence number and
   * every packet payload in order; per-packet timestamps are not carried and
   * come back as the default.
   */
  lemma ScanRoundTrip(m: LidarScanMsg)
    ensures forall i :: 0 <= i < |ToProtoScan(m).data| ==> |ToProtoScan(m).data[i]| <= PACKET_SIZE
    ensures var r := ToRsScan(ToProtoScan(m));
      && r.timestamp == m.timestamp && r.seqNum == m.seqNum
      && |r.packets| == |m.packets|
      && forall i :: 0 <= i < |m.packets| ==>
           r.packets[i] == LidarPacketMsg(DEFAULT_TIMESTAMP, m.packets[i].packet)
  {
    var r := ToRsScan(ToProtoScan(m));
    forall i | 0 <= i < |m.packets|
      ensures r.packets[i] == LidarPacketMsg(DEFAULT_TIMESTAMP, m.packets[i].packet)
    {
      var pk := r.packets[i].packet;
      assert pk[..PACKET_SIZE] == pk;
    }
  }
}
