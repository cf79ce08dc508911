/**
 * `Database`: a string-to-string map guarded by a readers-writer
 * protocol: up to `maxReaders` threads may hold read permission at once,
 * or a single thread may hold write permission. Calls are taken one at a
 * time, as the lock makes them; the calling thread is a parameter.
 */
module Database {
  import opened Wrappers

  /** A thread, by its identity. */
  type ThreadId = int

  /** The `IllegalMonitorStateException`s the release methods throw. */
  datatype DatabaseError = IllegalReadRelease | IllegalWriteRelease

  /** The lock's bookkeeping: the set of reading threads and the writing thread, if any. */
  datatype Permissions = Permissions(readers: set<ThreadId>, writer: Option<ThreadId>)

  const NO_PERMISSIONS := Permissions({}, None)

  /** What the protocol promises: a writer excludes every reader, and the readers never exceed the maximum. */
  predicate Safe(p: Permissions, maxReaders: int) {
    (p.writer.Some? ==> p.readers == {})
    && (p.readers == {} || |p.readers| <= maxReaders)
  }

  /** The condition under which `readTryAcquire` grants, and `readAcquire` stops waiting. */
  predicate CanRead(p: Permissions, maxReaders: int) {
    |p.readers| < maxReaders && p.writer == None
  }

  /** The condition under which `writeTryAcquire` grants, and `writeAcquire` stops waiting. */
  predicate CanWrite(p: Permissions) {
    p.readers == {} && p.writer == None
  }

  /** `readTryAcquire`: whether read permission was granted, and the permissions after the call. */
  function TryRead(p: Permissions, maxReaders: int, caller: ThreadId): (r: (bool, Permissions))
    ensures r.0 <==> CanRead(p, maxReaders)
    ensures r.0 ==> caller in r.1.readers && r.1.writer == None
    ensures r.0 ==> forall t :: t in p.readers ==> t in r.1.readers
    ensures r.0 ==> forall t :: t in r.1.readers ==> t in p.readers || t == caller
    ensures !r.0 ==> r.1 == p
  {
    if |p.readers| >= maxReaders || p.writer != None then (false, p)
    else (true, p.(readers := p.readers + {caller}))
  }

  /** `writeTryAcquire`: whether write permission was granted, and the permissions after the call. */
  function TryWrite(p: Permissions, caller: ThreadId): (r: (bool, Permissions))
    ensures r.0 <==> CanWrite(p)
    ensures r.0 ==> r.1 == Permissions({}, Some(caller))
    ensures !r.0 ==> r.1 == p
  {
    if p.readers != {} || p.writer != None then (false, p)
    else (true, p.(writer := Some(caller)))
  }

  /** `readRelease`: the caller gives up read permission; a thread that does not hold it is refused. */
  function ReleaseRead(p: Permissions, caller: ThreadId): (r: Result<Permissions, DatabaseError>)
    ensures r.Failure? <==> caller !in p.readers
    ensures r.Failure? ==> r.error == IllegalReadRelease
    ensures r.Success? ==> caller !in r.value.readers && r.value.writer == p.writer
    ensures r.Success? ==> |r.value.readers| == |p.readers| - 1
    ensures r.Success? ==> forall t :: t in p.readers && t != caller ==> t in r.value.readers
    ensures r.Success? ==> forall t :: t in r.value.readers ==> t in p.readers
  {
    if caller !in p.readers then Failure(IllegalReadRelease)
    else Success(p.(readers := p.readers - {caller}))
  }

  /** `writeRelease`: the writer gives up write permission; any other thread is refused. */
  function ReleaseWrite(p: Permissions, caller: ThreadId): (r: Result<Permissions, DatabaseError>)
    ensures r.Failure? <==> p.writer != Some(caller)
    ensures r.Failure? ==> r.error == IllegalWriteRelease
    ensures r.Success? ==> r.value == p.(writer := None)
  {
    if p.writer != Some(caller) then Failure(IllegalWriteRelease)
    else Success(p.(writer := None))
  }

  lemma AddOneReader(readers: set<ThreadId>, caller: ThreadId)
    ensures |readers + {caller}| <= |readers| + 1
  {
    if caller in readers {
      assert readers + {caller} == readers;
    } else {
      assert |readers + {caller}| == |readers| + 1;
    }
  }

  /** Each step of the protocol keeps it safe, whatever succeeds or fails. */
  lemma TryReadSafe(p: Permissions, maxReaders: int, caller: ThreadId)
    requires Safe(p, maxReaders)
    ensures Safe(TryRead(p, maxReaders, caller).1, maxReaders)
  {
    AddOneReader(p.readers, caller);
  }

  lemma TryWriteSafe(p: Permissions, maxReaders: int, caller: ThreadId)
    requires Safe(p, maxReaders)
    ensures Safe(TryWrite(p, caller).1, maxReaders)
  {
  }

  lemma ReleaseReadSafe(p: Permissions, maxReaders: int, caller: ThreadId)
    requires Safe(p, maxReaders)
    ensures var r := ReleaseRead(p, caller); r.Success? ==> Safe(r.value, maxReaders)
  {
  }

  lemma ReleaseWriteSafe(p: Permissions, maxReaders: int, caller: ThreadId)
    requires Safe(p, maxReaders)
    ensures var r := ReleaseWrite(p, caller); r.Success? ==> Safe(r.value, maxReaders)
  {
  }

  /** While a thread writes, no other thread is granted anything. */
  lemma WriterExcludes(p: Permissions, maxReaders: int, caller: ThreadId)
    requires p.writer.Some?
    ensures !TryRead(p, maxReaders, caller).0 && !TryWrite(p, caller).0
  {
  }

  /** With a maximum of 0 or less, read permission is never granted. */
  lemma NoReadersAllowed(p: Permissions, maxReaders: int, caller: ThreadId)
    requires maxReaders <= 0
    ensures !TryRead(p, maxReaders, caller).0
  {
  }

  /** Read permission is kept as a set: a thread that already reads, asking again, is granted with nothing changed below the maximum and refused at it. */
  lemma ReadReentry(p: Permissions, maxReaders: int, caller: ThreadId)
    requires caller in p.readers && p.writer == None
    ensures var (granted, q) := TryRead(p, maxReaders, caller);
      q == p && (granted <==> |p.readers| < maxReaders)
  {
    assert p.readers + {caller} == p.readers;
  }

  /** A new reader that acquires and then releases leaves the permissions as they were. */
  lemma ReadThenRelease(p: Permissions, maxReaders: int, caller: ThreadId)
    requires caller !in p.readers && CanRead(p, maxReaders)
    ensures ReleaseRead(TryRead(p, maxReaders, caller).1, caller) == Success(p)
  {
    assert (p.readers + {caller}) - {caller} == p.readers;
  }

  /** A writer that acquires and then releases leaves the permissions as they were. */
  lemma WriteThenRelease(p: Permissions, caller: ThreadId)
    requires CanWrite(p)
    ensures ReleaseWrite(TryWrite(p, caller).1, caller) == Success(p)
  {
  }

  class Database {
    var data: map<string, string>
    const maxReaders: int
    var readers: set<ThreadId>
    var writer: Option<ThreadId>

    function Permits(): Permissions
      reads this
    {
      Permissions(readers, writer)
    }

    ghost predicate Valid()
      reads this
    {
      Safe(Permits(), maxReaders)
    }

    /** An empty database; a negative maximum is accepted, and then no thread ever reads. */
    constructor(maxNumOfReaders: int)
      ensures Valid()
      ensures data == map[] && maxReaders == maxNumOfReaders && Permits() == NO_PERMISSIONS
    {
      data := map[];
      maxReaders := maxNumOfReaders;
      readers := {};
      writer := None;
    }

    /** `put`: stores `value` under `key`; no permission is checked. */
    method Put(key: string, value: string)
      modifies this
      ensures data == old(data)[key := value]
      ensures Permits() == old(Permits())
    {
      data := data[key := value];
    }

    /** `get`: the value stored under `key`, or `null`; no permission is checked. */
    method Get(key: string) returns (value: Option<string>)
      ensures key in data ==> value == Some(data[key])
      ensures key !in data ==> value == None
    {
      if key in data {
        value := Some(data[key]);
      } else {
        value := None;
      }
    }

    method ReadTryAcquire(caller: ThreadId) returns (acquired: bool)
      requires Valid()
      modifies this
      ensures Valid() && data == old(data)
      ensures (acquired, Permits()) == TryRead(old(Permits()), maxReaders, caller)
    {
      TryReadSafe(Permits(), maxReaders, caller);
      if |readers| >= maxReaders || writer != None {
        return false;
      }
      readers := readers + {caller};
      return true;
    }

    /** `readAcquire`, at the point its wait ends: the caller joins the readers. */
    method ReadAcquire(caller: ThreadId)
      requires Valid() && CanRead(Permits(), maxReaders)
      modifies this
      ensures Valid() && data == old(data)
      ensures Permits() == TryRead(old(Permits()), maxReaders, caller).1
    {
      TryReadSafe(Permits(), maxReaders, caller);
      readers := readers + {caller};
    }

    method ReadRelease(caller: ThreadId) returns (outcome: Outcome<DatabaseError>)
      requires Valid()
      modifies this
      ensures Valid() && data == old(data)
      ensures var r := ReleaseRead(old(Permits()), caller);
        (r.Failure? ==> outcome == Fail(r.error) && Permits() == old(Permits()))
        && (r.Success? ==> outcome == Pass && Permits() == r.value)
    {
      ReleaseReadSafe(Permits(), maxReaders, caller);
      if caller !in readers {
        return Fail(IllegalReadRelease);
      }
      readers := readers - {caller};
      outcome := Pass;
    }

    /** `writeAcquire`, at the point its wait ends: the caller becomes the writer. */
    method WriteAcquire(caller: ThreadId)
      requires Valid() && CanWrite(Permits())
      modifies this
      ensures Valid() && data == old(data)
      ensures Permits() == TryWrite(old(Permits()), caller).1
    {
      writer := Some(caller);
    }

    method WriteTryAcquire(caller: ThreadId) returns (acquired: bool)
      requires Valid()
      modifies this
      ensures Valid() && data == old(data)
      ensures (acquired, Permits()) == TryWrite(old(Permits()), caller)
    {
      if readers != {} || writer != None {
        return false;
      }
      writer := Some(caller);
      return true;
    }

    method WriteRelease(caller: ThreadId) returns (outcome: Outcome<DatabaseError>)
      requires Valid()
      modifies this
      ensures Valid() && data == old(data)
      ensures var r := ReleaseWrite(old(Permits()), caller);
        (r.Failure? ==> outcome == Fail(r.error) && Permits() == old(Permits()))
        && (r.Success? ==> outcome == Pass && Permits() == r.value)
    {
      if writer != Some(caller) {
        return Fail(IllegalWriteRelease);
      }
      writer := None;
      outcome := Pass;
    }
  }

  /** A value written is the value read back, and writing one key leaves the others alone. */
  method PutThenGet(db: Database, key: string, value: string, other: string) returns (same: Option<string>, before: Option<string>, after: Option<string>)
    modifies db
    ensures same == Some(value) && (other != key ==> after == before)
  {
    before := db.Get(other);
    db.Put(key, value);
    same := db.Get(key);
    after := db.Get(other);
  }
}
