/**
 * The parts of the sensor manager that the points path goes through: the two
 * callback registries and their fan-out, the driver-construction guard and
 * the message-source codes. A registered callback is represented by an
 * identifier; calling it is recorded as an invocation in an ordered log.
 */
module SensorManagerModel {
  import opened RsCommon
  import opened ProtoMsgTranslator

  // ------------------------------------------------------- message sources

  /** Where a component takes its messages from. */
  datatype MessageSource = NotUsed | RsDriver | Ros | Proto

  /** The enumerator's integer value. */
  function Code(m: MessageSource): (n: int)
    ensures 0 <= n <= 3
    ensures m.NotUsed? <==> n == 0
  {
    match m
    case NotUsed => 0
    case RsDriver => 1
    case Ros => 2
    case Proto => 3
  }

  /** The enumerator with integer value `n`, if there is one. */
  function FromCode(n: int): (r: Option<MessageSource>)
    ensures r.Some? <==> 0 <= n <= 3
    ensures r.Some? ==> Code(r.value) == n
  {
    if n == 0 then Some(NotUsed)
    else if n == 1 then Some(RsDriver)
    else if n == 2 then Some(Ros)
    else if n == 3 then Some(Proto)
    else None
  }

  /** Every enumerator round-trips through its value, so the four values are distinct. */
  lemma CodeRoundTrip(m: MessageSource, m': MessageSource)
    ensures FromCode(Code(m)) == Some(m)
    ensures Code(m) == Code(m') ==> m == m'
  {
    match m
    case NotUsed =>
    case RsDriver =>
    case Ros =>
    case Proto =>
  }

  // --------------------------------------------------- driver construction

  /**
   * Whether `localConstruct` creates an instance (instead of returning null):
   * the requested API mask OR-ed with the type's own API mask is not zero.
   */
  function LocalConstruct(apiRequest: bv16, typeApi: bv16): (constructed: bool)
    ensures constructed <==> apiRequest != 0 || typeApi != 0
  {
    (apiRequest | typeApi) != 0
  }

  /**
   * Since the masks are OR-ed, a type with a non-zero API mask is created
   * whatever is requested, even a request sharing no bit with it; only a
   * zero request for a zero-mask type yields null.
   */
  lemma ConstructIgnoresRequest(apiRequest: bv16, typeApi: bv16)
    requires typeApi != 0 && apiRequest & typeApi == 0
    ensures LocalConstruct(apiRequest, typeApi)
    ensures LocalConstruct(0, typeApi) == LocalConstruct(apiRequest, typeApi)
  {
  }

  // ------------------------------------------------------ callback fan-out

  /** A registered callback, by identity. */
  type CallbackId = nat

  /** One call of a registered callback, with its argument. */
  datatype Invocation =
    | PointsCall(cb: CallbackId, msg: LidarPointsMsg)
    | ExceptionCall(cb: CallbackId, code: ErrCode)

  /** Calling each of `cbs` in order with `msg`. */
  function PointsFanOut(cbs: seq<CallbackId>, msg: LidarPointsMsg): (r: seq<Invocation>)
    ensures |r| == |cbs|
    ensures forall i :: 0 <= i < |cbs| ==> r[i] == PointsCall(cbs[i], msg)
  {
    if cbs == [] then [] else PointsFanOut(cbs[..|cbs| - 1], msg) + [PointsCall(cbs[|cbs| - 1], msg)]
  }

  /** Calling each of `cbs` in order with `code`. */
  function ExceptionFanOut(cbs: seq<CallbackId>, code: ErrCode): (r: seq<Invocation>)
    ensures |r| == |cbs|
    ensures forall i :: 0 <= i < |cbs| ==> r[i] == ExceptionCall(cbs[i], code)
  {
    if cbs == [] then [] else ExceptionFanOut(cbs[..|cbs| - 1], code) + [ExceptionCall(cbs[|cbs| - 1], code)]
  }

  /** How often callback `cb` is called in `log`. */
  function CallsOf(log: seq<Invocation>, cb: CallbackId): (n: nat)
    ensures n <= |log|
  {
    if log == [] then 0
    else CallsOf(log[..|log| - 1], cb) + (if log[|log| - 1].cb == cb then 1 else 0)
  }

  /** How often `cb` occurs in `cbs`. */
  function Occurrences(cbs: seq<CallbackId>, cb: CallbackId): (n: nat)
    ensures n <= |cbs|
  {
    if cbs == [] then 0
    else Occurrences(cbs[..|cbs| - 1], cb) + (if cbs[|cbs| - 1] == cb then 1 else 0)
  }

  /**
   * A delivery calls each callback as often as it is registered: once for a
   * callback registered once, never for one that is not registered.
   */
  lemma {:induction false} PointsFanOutCalls(cbs: seq<CallbackId>, msg: LidarPointsMsg, cb: CallbackId)
    ensures CallsOf(PointsFanOut(cbs, msg), cb) == Occurrences(cbs, cb)
  {
    if cbs != [] {
      var k := |cbs| - 1;
      PointsFanOutCalls(cbs[..k], msg, cb);
      assert PointsFanOut(cbs, msg)[..k] == PointsFanOut(cbs[..k], msg);
    }
  }

  /** The exception-side counterpart of `PointsFanOutCalls`. */
  lemma {:induction false} ExceptionFanOutCalls(cbs: seq<CallbackId>, code: ErrCode, cb: CallbackId)
    ensures CallsOf(ExceptionFanOut(cbs, code), cb) == Occurrences(cbs, cb)
  {
    if cbs != [] {
      var k := |cbs| - 1;
      ExceptionFanOutCalls(cbs[..k], code, cb);
      assert ExceptionFanOut(cbs, code)[..k] == ExceptionFanOut(cbs[..k], code);
    }
  }

  /**
   * Registering one more points callback adds exactly one call at the end of
   * every later delivery, and leaves the earlier calls as they were.
   */
  lemma PointsFanOutAfterRegistration(cbs: seq<CallbackId>, cb: CallbackId, msg: LidarPointsMsg)
    ensures PointsFanOut(cbs + [cb], msg) == PointsFanOut(cbs, msg) + [PointsCall(cb, msg)]
  {
    assert (cbs + [cb])[..|cbs|] == cbs;
  }

  /** The exception-side counterpart of `PointsFanOutAfterRegistration`. */
  lemma ExceptionFanOutAfterRegistration(cbs: seq<CallbackId>, cb: CallbackId, code: ErrCode)
    ensures ExceptionFanOut(cbs + [cb], code) == ExceptionFanOut(cbs, code) + [ExceptionCall(cb, code)]
  {
    assert (cbs + [cb])[..|cbs|] == cbs;
  }

  class SensorManager {
    /** The exception callbacks, in registration order. */
    var excbs: seq<CallbackId>
    /** The points callbacks, in registration order. */
    var lidarPointscbs: seq<CallbackId>
    /** Every callback call made so far, in order. */
    var invoked: seq<Invocation>

    constructor ()
      ensures excbs == [] && lidarPointscbs == [] && invoked == []
    {
      excbs, lidarPointscbs, invoked := [], [], [];
    }

    method RegExceptionCallback(cb: CallbackId)
      modifies this`excbs
      ensures excbs == old(excbs) + [cb]
      ensures lidarPointscbs == old(lidarPointscbs) && invoked == old(invoked)
    {
      excbs := excbs + [cb];
    }

    method RegRecvCallback(cb: CallbackId)
      modifies this`lidarPointscbs
      ensures lidarPointscbs == old(lidarPointscbs) + [cb]
      ensures excbs == old(excbs) && invoked == old(invoked)
    {
      lidarPointscbs := lidarPointscbs + [cb];
    }

    /** Hand `msg` to every points callback, in registration order; the lists stay as they are. */
    method LocalLidarPointsCallback(msg: LidarPointsMsg)
      modifies this`invoked
      ensures invoked == old(invoked) + PointsFanOut(lidarPointscbs, msg)
      ensures lidarPointscbs == old(lidarPointscbs) && excbs == old(excbs)
    {
      if |lidarPointscbs| != 0 {
        for i := 0 to |lidarPointscbs|
          invariant invoked == old(invoked) + PointsFanOut(lidarPointscbs[..i], msg)
        {
          assert lidarPointscbs[..i + 1] == lidarPointscbs[..i] + [lidarPointscbs[i]];
          PointsFanOutAfterRegistration(lidarPointscbs[..i], lidarPointscbs[i], msg);
          invoked := invoked + [PointsCall(lidarPointscbs[i], msg)];
        }
        assert lidarPointscbs[..|lidarPointscbs|] == lidarPointscbs;
      }
    }

    /** Hand `code` to every exception callback, in registration order; the lists stay as they are. */
    method LocalExceptionCallback(code: ErrCode)
      modifies this`invoked
      ensures invoked == old(invoked) + ExceptionFanOut(excbs, code)
      ensures lidarPointscbs == old(lidarPointscbs) && excbs == old(excbs)
    {
      if |excbs| != 0 {
        for i := 0 to |excbs|
          invariant invoked == old(invoked) + ExceptionFanOut(excbs[..i], code)
        {
          assert excbs[..i + 1] == excbs[..i] + [excbs[i]];
          ExceptionFanOutAfterRegistration(excbs[..i], excbs[i], code);
          invoked := invoked + [ExceptionCall(excbs[i], code)];
        }
        assert excbs[..|excbs|] == excbs;
      }
    }
  }
}
