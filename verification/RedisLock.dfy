/** The Redis lock: SET key token EX ttl NX, and the compare-and-delete release script. */
module RedisLock {
  import opened Base

  datatype Lock = Lock(token: string, expiresAt: int)

  /** What GET sees: a key past its expiry is gone. */
  function Live(entry: Option<Lock>, now: int): Option<Lock> {
    if entry.Some? && now < entry.value.expiresAt then entry else None
  }

  function SetNx(entry: Option<Lock>, token: string, now: int, ttl: nat): Option<Lock> {
    if Live(entry, now).Some? then entry else Some(Lock(token, now + ttl))
  }

  function DeleteIfMine(entry: Option<Lock>, token: string, now: int): Option<Lock> {
    if Live(entry, now).Some? && entry.value.token == token then None else entry
  }

  class LockStore {
    var locks: map<string, Lock>

    function Entry(key: string): Option<Lock>
      reads this
    {
      if key in locks then Some(locks[key]) else None
    }

    /** The token on success, None while another token holds the key. */
    method AcquireLock(key: string, token: string, now: int, ttl: nat) returns (acquired: Option<string>)
      modifies this
      ensures acquired == if Live(old(Entry(key)), now).None? then Some(token) else None
      ensures Entry(key) == SetNx(old(Entry(key)), token, now, ttl)
      ensures forall k :: k != key ==> Entry(k) == old(Entry(k))
    {
      if key in locks && now < locks[key].expiresAt {
        return None;
      }
      locks := locks[key := Lock(token, now + ttl)];
      return Some(token);
    }

    /** Deletes the key only while it still holds this caller's token. */
    method ReleaseLock(key: string, token: string, now: int)
      modifies this
      ensures Entry(key) == DeleteIfMine(old(Entry(key)), token, now)
      ensures forall k :: k != key ==> Entry(k) == old(Entry(k))
    {
      if key in locks && now < locks[key].expiresAt && locks[key].token == token {
        locks := locks - {key};
      }
    }
  }
}
