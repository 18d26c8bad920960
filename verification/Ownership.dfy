/** Owner tokens, the singleton lease, and the checks a writer makes of its own authority. */
module Ownership {
  import opened Values

  /** Runtime authority minted by one lease claim; `locked` says it came with a file lock. */
  datatype Token = Token(locked: bool, owner: string, epoch: int, nonce: string)

  /** The singleton lease row. */
  datatype Lease = Lease(owner: string, epoch: int)

  datatype Marker = Marker(nonce: string, owner: string, epoch: int)

  /** The temporary tables of one connection. */
  datatype Temp = Temp(nonce: string, ready: set<Marker>)

  datatype Guard = OwnerGuard(token: Token) | FixtureGuard

  /** `StoreOwner::verify`. */
  predicate Verifies(inMemory: bool, lease: Option<Lease>, temp: Option<Temp>, t: Token) {
    && t.locked != inMemory
    && temp.Some? && temp.value.nonce == t.nonce
    && lease == Some(Lease(t.owner, t.epoch))
  }

  /** `WriteFence::verify`: a ready current owner, or an unleased in-memory fixture. */
  predicate Holds(inMemory: bool, lease: Option<Lease>, temp: Option<Temp>, g: Guard) {
    match g
    case OwnerGuard(t) =>
      Verifies(inMemory, lease, temp, t) && Marker(t.nonce, t.owner, t.epoch) in temp.value.ready
    case FixtureGuard => inMemory && lease.None?
  }
}
