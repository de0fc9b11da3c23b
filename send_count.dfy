/**
 * The native client's send bookkeeping: how a disconnect is classified, and
 * the counter of devices a message has been delivered to. A send sets
 * `g_targetCnt` to the number of devices addressed; every finished delivery
 * (or a disconnect that does not end the connection logic) counts one, and
 * when the count reaches the target the send buffer is dropped and the
 * waiting sender is told that the send has finished.
 */
module SendCount {

  /** A C `uint32_t`. */
  type U32 = x: nat | x < 0x1_0000_0000

  /** `GATT_CONNECTION_PRIORITY_BALANCED`; numerically the same as `GATT_SUCCESS`. */
  const GattConnectionPriorityBalanced: int := 0
  const GattFailure: int := 257
  const GattInsufficientAuthentication: int := 5
  const GattInsufficientEncryption: int := 15
  const GattInvalidAttributeLength: int := 13
  const GattInvalidOffset: int := 7
  const GattReadNotPermitted: int := 2
  const GattRequestNotSupported: int := 6
  const GattWriteNotPermitted: int := 3
  /** `GATT_ERROR` (0x85): a disconnect with this status is followed by a new connect. */
  const GattError: int := 0x85

  /** The disconnect statuses that end the connection logic of a device, by value. */
  const StopStatuses: set<int> := {0, 2, 3, 5, 6, 7, 13, 15, 257}

  /**
   * `CALECheckConnectionStateValue`: true for the statuses after which the
   * platform will not reconnect in the background. The C comment above the
   * function describes the two results the other way round; the only caller
   * (caleclient.c:4941-4946) treats `true` as the end of the connection
   * logic, and the model follows that use.
   */
  function CheckConnectionStateValue(state: int): (stop: bool)
    ensures stop <==> state in StopStatuses
  {
    state == GattConnectionPriorityBalanced
    || state == GattFailure
    || state == GattInsufficientAuthentication
    || state == GattInsufficientEncryption
    || state == GattInvalidAttributeLength
    || state == GattInvalidOffset
    || state == GattReadNotPermitted
    || state == GattRequestNotSupported
    || state == GattWriteNotPermitted
  }

  /** What the disconnected branch of the connection-state callback goes on to do. */
  datatype DisconnectAction =
    | RetryConnect     // connect to the same device again
    | FinishSend       // `CALEClientSendFinish`: the connection logic of the device ends
    | CountDelivery    // `CALEClientUpdateSendCnt`: the platform keeps reconnecting

  /**
   * The decision taken once the device state of a disconnected GATT object
   * has been written: a failed write ends the connection logic at once;
   * otherwise `GATT_ERROR` retries, a stop status finishes, and any other
   * status counts as a delivery.
   */
  function OnDisconnected(stateUpdated: bool, status: int): (a: DisconnectAction)
    ensures a == RetryConnect <==> stateUpdated && status == GattError
    ensures a == FinishSend <==> !stateUpdated || status in StopStatuses
    ensures a == CountDelivery <==> stateUpdated && status != GattError && status !in StopStatuses
  {
    if !stateUpdated then FinishSend
    else if status == GattError then RetryConnect
    else if CheckConnectionStateValue(status) then FinishSend
    else CountDelivery
  }

  /** The send bookkeeping as one value. */
  datatype Counters = Counters(
    target: U32,       // `g_targetCnt`
    current: U32,      // `g_currentSentCnt`
    buffered: bool,    // `g_sendBuffer != NULL`
    finished: bool)    // `g_isFinishedSendData`

  /**
   * The effect of `CALEClientUpdateSendCnt`: the count goes up by one
   * (wrapping like a `uint32_t`); once it has reached the target, both
   * counters return to 0, the buffer is dropped and the send is finished.
   */
  function AfterDelivery(c: Counters): (r: Counters)
    ensures var n := (c.current + 1) % 0x1_0000_0000;
      if c.target <= n
      then r.target == 0 && r.current == 0 && !r.buffered && r.finished
      else r.target == c.target && r.current == n && r.buffered == c.buffered && r.finished == c.finished
  {
    var n := if c.current == 0xFFFF_FFFF then 0 else c.current + 1;
    if c.target <= n then Counters(0, 0, false, true) else c.(current := n)
  }

  /** `k` deliveries in a row. */
  function Deliveries(c: Counters, k: nat): Counters {
    if k == 0 then c else AfterDelivery(Deliveries(c, k - 1))
  }

  class SendCounter {
    var targetCnt: U32
    var currentSentCnt: U32
    var hasSendBuffer: bool
    var isFinishedSendData: bool

    function State(): Counters
      reads this
    {
      Counters(targetCnt, currentSentCnt, hasSendBuffer, isFinishedSendData)
    }

    /** The initial values of the four globals. */
    constructor ()
      ensures State() == Counters(0, 0, false, false)
    {
      targetCnt := 0;
      currentSentCnt := 0;
      hasSendBuffer := false;
      isFinishedSendData := false;
    }

    /** `CALEClientUpdateSendCnt`. */
    method UpdateSendCnt()
      modifies this
      ensures State() == AfterDelivery(old(State()))
    {
      currentSentCnt := if currentSentCnt == 0xFFFF_FFFF then 0 else currentSentCnt + 1;
      if targetCnt <= currentSentCnt {
        targetCnt := 0;
        currentSentCnt := 0;
        if hasSendBuffer {
          hasSendBuffer := false;
        }
        isFinishedSendData := true;
      }
    }
  }

  // ---------------------------------------------------------------------------
  // Properties of the specification functions

  /**
   * A send to `n` devices that starts from a zero count finishes at exactly
   * the `n`-th delivery: before it the count is the number of deliveries and
   * nothing else changes; at it the counters are reset, the buffer is dropped
   * and the send is finished.
   */
  lemma {:induction false} FinishesAtTarget(n: U32, buffered: bool, k: nat)
    requires 1 <= n && k <= n
    ensures var c := Deliveries(Counters(n, 0, buffered, false), k);
      if k < n then c == Counters(n, k, buffered, false)
      else c == Counters(0, 0, false, true)
  {
    if k > 0 {
      FinishesAtTarget(n, buffered, k - 1);
    }
  }

  /**
   * After a finished send the target is 0, so any further delivery — a late
   * callback — finishes again at once and leaves the counters at 0.
   */
  lemma {:induction false} LateDeliveriesStayFinished(c: Counters, k: nat)
    requires c == Counters(0, 0, false, true)
    ensures Deliveries(c, k) == c
  {
    if k > 0 {
      LateDeliveriesStayFinished(c, k - 1);
    }
  }

  /**
   * The count wraps like a `uint32_t`: a count of 2^32 - 1 becomes 0, which
   * finishes the send only when the target is 0.
   */
  lemma CountWraps(c: Counters)
    requires c.current == 0xFFFF_FFFF
    ensures AfterDelivery(c).current == 0
    ensures AfterDelivery(c).finished == (c.target == 0 || c.finished)
  {
  }

  /**
   * `GATT_SUCCESS` has the value of `GATT_CONNECTION_PRIORITY_BALANCED`, so
   * a disconnect reported with a success status ends the connection logic;
   * `GATT_ERROR` is never a stop status, so after a successful state write
   * it reaches the retry, while a failed state write finishes the send
   * before the status is looked at.
   */
  lemma DisconnectStatuses()
    ensures OnDisconnected(true, 0) == FinishSend
    ensures !CheckConnectionStateValue(GattError)
    ensures OnDisconnected(true, GattError) == RetryConnect
    ensures OnDisconnected(false, GattError) == FinishSend
  {
  }
}
