/**
 * The database connection cache (Financial-advisor/Backend/db.js): a
 * process-wide record with two fields, the connection `conn` and the pending
 * connection `promise`, so that repeated calls of `connectDB` reuse one
 * connection and a failed attempt is retried on the next call.
 *
 * The model runs calls one after another. A promise is represented by the
 * outcome it settles with; `connect` is the outcome `mongoose.connect` would
 * produce if it were started by this call.
 */
module Db {
  import opened Base

  /** An established connection (the mongoose instance the promise resolves to). */
  datatype Connection = Connection(id: nat)

  const MissingUriMessage := "\U{274C} MONGO_URI is not defined in environment variables"

  datatype CacheState = CacheState(conn: Option<Connection>, promise: Option<Result<Connection>>)

  /** The state left by one call, what the call returned or threw, and whether it
      started a new connection attempt. */
  datatype CallOutcome = CallOutcome(state: CacheState, result: Result<Connection>, started: bool)

  /** One call of `connectDB()`. */
  function Step(s: CacheState, mongoUri: Option<string>, connect: Result<Connection>): (o: CallOutcome)
    ensures !Truthy(mongoUri) ==> o == CallOutcome(s, Err(MissingUriMessage), false)
    ensures Truthy(mongoUri) && s.conn.Some? ==> o == CallOutcome(s, Ok(s.conn.value), false)
    ensures o.started <==> Truthy(mongoUri) && s.conn.None? && s.promise.None?
    ensures o.started ==> o.result == connect
    ensures Truthy(mongoUri) && s.conn.None? && o.result.Err? ==> o.state == CacheState(None, None)
    ensures Truthy(mongoUri) && o.result.Ok? ==> o.state.conn == Some(o.result.value)
  {
    if !Truthy(mongoUri) then CallOutcome(s, Err(MissingUriMessage), false)
    else if s.conn.Some? then CallOutcome(s, Ok(s.conn.value), false)
    else
      var started := s.promise.None?;
      var settled := if started then connect else s.promise.value;
      match settled
      case Ok(c) => CallOutcome(CacheState(Some(c), Some(settled)), Ok(c), started)
      case Err(e) => CallOutcome(CacheState(s.conn, None), Err(e), started)
  }

  /** Between sequential calls the cache is empty, or holds a connection together
      with the promise that produced it; in particular `conn` set implies
      `promise` set, and `promise` null implies `conn` null. */
  predicate Inv(s: CacheState)
  {
    (s.conn.None? && s.promise.None?) || (s.conn.Some? && s.promise == Some(Ok(s.conn.value)))
  }

  lemma StepKeepsInv(s: CacheState, mongoUri: Option<string>, connect: Result<Connection>)
    requires Inv(s)
    ensures Inv(Step(s, mongoUri, connect).state)
    ensures Step(s, mongoUri, connect).state.conn.Some? ==> Step(s, mongoUri, connect).state.promise.Some?
  {
  }

  /** A call with its environment and its would-be connection outcome. */
  datatype Call = Call(mongoUri: Option<string>, connect: Result<Connection>)

  /** The outcomes of a sequence of calls made one after another from `s`. */
  function Run(s: CacheState, calls: seq<Call>): (os: seq<CallOutcome>)
    ensures |os| == |calls|
    decreases |calls|
  {
    if calls == [] then []
    else
      var o := Step(s, calls[0].mongoUri, calls[0].connect);
      [o] + Run(o.state, calls[1..])
  }

  /** The state after a sequence of calls. */
  function After(s: CacheState, calls: seq<Call>): CacheState
    decreases |calls|
  {
    if calls == [] then s
    else After(Step(s, calls[0].mongoUri, calls[0].connect).state, calls[1..])
  }

  /** Every state reached by sequential calls satisfies the invariant. */
  lemma {:induction false} RunKeepsInv(s: CacheState, calls: seq<Call>)
    requires Inv(s)
    ensures Inv(After(s, calls))
    ensures forall i :: 0 <= i < |calls| ==> Inv(Run(s, calls)[i].state)
    decreases |calls|
  {
    if calls != [] {
      var o := Step(s, calls[0].mongoUri, calls[0].connect);
      StepKeepsInv(s, calls[0].mongoUri, calls[0].connect);
      RunKeepsInv(o.state, calls[1..]);
      forall i | 0 <= i < |calls| ensures Inv(Run(s, calls)[i].state) {
        if i > 0 {
          assert Run(s, calls)[i] == Run(o.state, calls[1..])[i - 1];
        }
      }
    }
  }

  /** Once connected, every later call returns that same connection (or throws
      for a missing MONGO_URI), starts no new attempt and leaves the cache alone. */
  lemma {:induction false} ConnectedStaysConnected(s: CacheState, c: Connection, calls: seq<Call>)
    requires s.conn == Some(c)
    ensures forall i :: 0 <= i < |calls| ==>
              Run(s, calls)[i] == CallOutcome(s, if Truthy(calls[i].mongoUri) then Ok(c) else Err(MissingUriMessage), false)
    decreases |calls|
  {
    if calls != [] {
      ConnectedStaysConnected(s, c, calls[1..]);
      forall i | 0 <= i < |calls|
        ensures Run(s, calls)[i] == CallOutcome(s, if Truthy(calls[i].mongoUri) then Ok(c) else Err(MissingUriMessage), false)
      {
        if i > 0 {
          assert calls[1..][i - 1] == calls[i];
        }
      }
    }
  }

  /** After a failed attempt the next call with MONGO_URI set starts a new one. */
  lemma RetryAfterFailure(s: CacheState, first: Call, second: Call)
    requires Inv(s) && s.conn.None? && Truthy(first.mongoUri) && first.connect.Err?
    requires Truthy(second.mongoUri)
    ensures Step(s, first.mongoUri, first.connect).result == first.connect
    ensures Step(Step(s, first.mongoUri, first.connect).state, second.mongoUri, second.connect).started
  {
  }

  /** The cache object shared by every call of `connectDB`. */
  class ConnectionCache {
    var conn: Option<Connection>
    var promise: Option<Result<Connection>>

    function State(): CacheState
      reads this
    {
      CacheState(conn, promise)
    }

    /** `{ conn: null, promise: null }`. */
    constructor ()
      ensures State() == CacheState(None, None) && Inv(State())
    {
      conn := None;
      promise := None;
    }

    /** `connectDB()`: throws when MONGO_URI is missing, returns the cached
        connection when there is one, otherwise starts an attempt if none is
        stored, awaits the stored attempt, and on failure forgets it and
        rethrows. Returns the outcome and whether an attempt was started. */
    method ConnectDB(mongoUri: Option<string>, connect: Result<Connection>)
      returns (result: Result<Connection>, started: bool)
      modifies this
      ensures State() == Step(old(State()), mongoUri, connect).state
      ensures result == Step(old(State()), mongoUri, connect).result
      ensures started == Step(old(State()), mongoUri, connect).started
    {
      started := false;
      if !Truthy(mongoUri) {
        return Err(MissingUriMessage), false;
      }
      if conn.Some? {
        return Ok(conn.value), false;
      }
      if promise.None? {
        promise := Some(connect);
        started := true;
      }
      match promise.value {
        case Ok(c) =>
          conn := Some(c);
        case Err(e) =>
          promise := None;
          return Err(e), started;
      }
      result := Ok(conn.value);
    }
  }
}
