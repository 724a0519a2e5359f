/** Address leases granted to hostnames for a bounded time. */
module Leases {
  import opened Wire
  import opened DnsMessages

  type Time = real

  datatype Lease = Lease(expires: Time, id: string)

  type LeaseMap = map<(string, Address), Lease>

  datatype GrantResult = Granted(id: string) | Refused | InvalidRequest

  predicate IsLeaseId(id: string) {
    |id| == 32 && forall i :: 0 <= i < 32 ==> '0' <= id[i] <= '9' || 'a' <= id[i] <= 'f'
  }

  function Unexpired(leases: LeaseMap, now: Time): LeaseMap {
    map k | k in leases && leases[k].expires > now :: leases[k]
  }

  /** Every address of the list leased to the hostname. */
  function WithAll(leases: LeaseMap, hostname: string, addresses: seq<Address>, lease: Lease): LeaseMap {
    if addresses == [] then leases
    else WithAll(leases, hostname, addresses[..|addresses| - 1], lease)[(hostname, addresses[|addresses| - 1]) := lease]
  }

  /** When a live answer processed at `now` lapses. */
  function LiveExpiry(now: Time, ttl: int, maxTtl: int, grace: int): Time {
    now + Min(ttl, maxTtl) as real + grace as real
  }

  class LeaseRegistry {
    const maxTtl: int
    const grace: int
    var leases: LeaseMap

    ghost predicate Valid()
      reads this
    {
      maxTtl > 0 && grace >= 0
    }

    constructor (maxTtl: int, grace: int)
      requires maxTtl > 0 && grace >= 0
      ensures Valid() && this.maxTtl == maxTtl && this.grace == grace && leases == map[]
    {
      this.maxTtl, this.grace, leases := maxTtl, grace, map[];
    }

    /** Grants a lease.  `now` is read before the lock, `locked` inside it;
        `fresh32` is the identifier drawn when the caller gives none. */
    method Grant(hostname: string, addresses: seq<Address>, ttl: int, leaseId: Option<string>,
                 graceSeconds: Option<int>, expiresAt: Option<Time>, fresh32: string, now: Time, locked: Time)
      returns (r: GrantResult)
      requires Valid()
      modifies this
      ensures Valid()
      ensures var id := if leaseId.Some? && leaseId.value != "" then leaseId.value else fresh32;
              var expires := if expiresAt.Some? then expiresAt.value
                             else LiveExpiry(now, ttl, maxTtl, if graceSeconds.Some? then graceSeconds.value else grace);
              r == if addresses == [] || ttl <= 0 then Refused
                   else if !IsLeaseId(id) || (expiresAt.None? && graceSeconds.Some? && graceSeconds.value < 0) then InvalidRequest
                   else if expiresAt.Some? && expires <= now then Refused
                   else Granted(id)
      ensures r.Granted? ==>
                leases == WithAll(Unexpired(old(leases), locked), hostname, addresses,
                                  Lease(if expiresAt.Some? then expiresAt.value
                                        else LiveExpiry(now, ttl, maxTtl, if graceSeconds.Some? then graceSeconds.value else grace),
                                        r.id))
      ensures !r.Granted? ==> leases == old(leases)
    {
      if addresses == [] || ttl <= 0 {
        return Refused;
      }
      var id := if leaseId.Some? && leaseId.value != "" then leaseId.value else fresh32;
      if !IsLeaseId(id) {
        return InvalidRequest;
      }
      var expires: Time;
      if expiresAt.None? {
        var seconds := if graceSeconds.Some? then graceSeconds.value else grace;
        if seconds < 0 {
          return InvalidRequest;
        }
        expires := now + Min(ttl, maxTtl) as real + seconds as real;
      } else {
        expires := expiresAt.value;
        if expires <= now {
          return Refused;
        }
      }
      Purge(locked);
      ghost var purged := leases;
      for i := 0 to |addresses|
        invariant leases == WithAll(purged, hostname, addresses[..i], Lease(expires, id))
      {
        assert addresses[..i + 1][..i] == addresses[..i];
        leases := leases[(hostname, addresses[i]) := Lease(expires, id)];
      }
      assert addresses[..|addresses|] == addresses;
      return Granted(id);
    }

    /** The lease held for an address, if it has not lapsed. */
    method Authorize(hostname: string, address: Address, locked: Time, now: Time) returns (r: Option<string>)
      requires Valid()
      modifies this
      ensures Valid() && leases == Unexpired(old(leases), locked)
      ensures r == if (hostname, address) in old(leases)
                      && old(leases)[(hostname, address)].expires > locked && old(leases)[(hostname, address)].expires > now
                   then Some(old(leases)[(hostname, address)].id) else None
    {
      Purge(locked);
      var key := (hostname, address);
      return if key in leases && leases[key].expires > now then Some(leases[key].id) else None;
    }

    method Purge(now: Time)
      modifies this
      ensures leases == Unexpired(old(leases), now)
    {
      leases := map k | k in leases && leases[k].expires > now :: leases[k];
    }
  }

  /** A grant covers exactly its own hostname and addresses. */
  lemma {:induction false} WithAllExact(leases: LeaseMap, hostname: string, addresses: seq<Address>, lease: Lease)
    ensures var all := WithAll(leases, hostname, addresses, lease);
            forall h, a :: ((h, a) in all <==> (h, a) in leases || (h == hostname && a in addresses))
                        && ((h, a) in all ==> all[(h, a)] == if h == hostname && a in addresses then lease else leases[(h, a)])
  {
    if addresses != [] {
      var front := addresses[..|addresses| - 1];
      WithAllExact(leases, hostname, front, lease);
      assert addresses == front + [addresses[|addresses| - 1]];
    }
  }

  /** An identifier is 32 lower-case hexadecimal digits. */
  lemma LeaseIdExact(id: string)
    ensures IsLeaseId(id) <==> |id| == 32 && forall c :: c in id ==> c in "0123456789abcdef"
  {
    forall c: char ensures ('0' <= c <= '9' || 'a' <= c <= 'f') <==> c in "0123456789abcdef" {
      HexDigit(c);
    }
    if IsLeaseId(id) {
      forall c | c in id ensures c in "0123456789abcdef" {
        var i :| 0 <= i < |id| && id[i] == c;
      }
    }
    if |id| == 32 && forall c :: c in id ==> c in "0123456789abcdef" {
      assert forall i :: 0 <= i < 32 ==> id[i] in id;
    }
  }

  lemma HexDigit(c: char)
    ensures ('0' <= c <= '9' || 'a' <= c <= 'f') <==> c in "0123456789abcdef"
  {
    var digits := "0123456789abcdef";
    if '0' <= c <= '9' {
      assert digits[c as int - '0' as int] == c;
    } else if 'a' <= c <= 'f' {
      assert digits[c as int - 'a' as int + 10] == c;
    }
  }

  /** A granted address is authorized with the grant's identifier until it
      lapses; every other pair keeps what it had. */
  lemma GrantThenAuthorize(leases: LeaseMap, hostname: string, addresses: seq<Address>, lease: Lease, locked: Time, now: Time, h: string, a: Address)
    ensures var later := Unexpired(WithAll(Unexpired(leases, locked), hostname, addresses, lease), now);
            if h == hostname && a in addresses then
              ((h, a) in later <==> lease.expires > now) && ((h, a) in later ==> later[(h, a)] == lease)
            else
              ((h, a) in later <==> (h, a) in leases && leases[(h, a)].expires > locked && leases[(h, a)].expires > now)
              && ((h, a) in later ==> later[(h, a)] == leases[(h, a)])
  {
    WithAllExact(Unexpired(leases, locked), hostname, addresses, lease);
  }
}
