/** The table of source addresses that may open USB/IP connections, as the web server keeps it. */
module AccessTable {
  import opened Wrappers

  type Address = string

  datatype Grant = Grant(clientId: string, clientName: string, authorizedAt: int, expiresAt: int)

  /** What the file holds; a blank file counts as an empty table. No file means that access control is off. */
  datatype Content = Corrupt | Grants(grants: map<Address, Grant>)

  datatype Outcome<T> = Raised | Returned(value: T)

  /** May an address connect, by the file and a wall clock? */
  predicate Allows(file: Option<Content>, address: Address, now: real) {
    file.None? || (file.value.Grants? && address in file.value.grants &&
                   file.value.grants[address].expiresAt as real > now)
  }

  /** The table that the strict reader sees; None: it raises. */
  function ReadStrict(file: Option<Content>): Option<map<Address, Grant>> {
    match file
    case None => Some(map[])
    case Some(Corrupt) => None
    case Some(Grants(grants)) => Some(grants)
  }

  function Cut(text: string, max: nat): (r: string)
    ensures |r| <= max && r <= text
  {
    if |text| > max then text[..max] else text
  }

  /** Every address but one stands as before. */
  predicate OthersKept(was: map<Address, Grant>, grants: map<Address, Grant>, address: Address) {
    was - {address} == grants - {address}
  }

  class Table {
    var file: Option<Content>
    const required: bool  // a shared password is configured
    const ttl: int

    constructor (file: Option<Content>, required: bool, ttl: int)
      requires ttl >= 60
      ensures this.file == file && this.required == required && this.ttl == ttl
    {
      this.file, this.required, this.ttl := file, required, ttl;
    }

    /** _write_access_grants; written: the file system takes it. */
    method Write(grants: map<Address, Grant>, written: bool) returns (ok: bool)
      modifies this
      ensures !required ==> ok && (file == None || (!written && file == old(file)))
      ensures required ==> ok == written && file == if written then Some(Grants(grants)) else old(file)
    {
      if !required {
        if written {
          file := None;
        }
        return true;
      }
      if written {
        file := Some(Grants(grants));
      }
      return written;
    }

    method Authorize(address: Address, clientId: string, clientName: string, now: real, written: bool)
      returns (r: Outcome<Grant>)
      modifies this
      ensures old(file) == Some(Corrupt) ==> r == Raised && file == old(file)
      ensures r.Raised? ==> file == old(file)
      ensures r.Returned? && required ==>
                && r.value == Grant(Cut(clientId, 128), Cut(clientName, 80), now.Floor, now.Floor + ttl)
                && file.Some? && file.value.Grants?
                && address in file.value.grants && file.value.grants[address] == r.value
                && OthersKept(ReadStrict(old(file)).value, file.value.grants, address)
      ensures r.Returned? && required ==> forall t :: Allows(file, address, t) <==> t < (now.Floor + ttl) as real
      ensures old(file) != Some(Corrupt) && (written || !required) ==> r.Returned?
      ensures r.Returned? ==>
                r.value == Grant(Cut(clientId, 128), Cut(clientName, 80), now.Floor, now.Floor + ttl)
      ensures !required && written && r.Returned? ==> file == None
    {
      var grants := ReadStrict(file);
      if grants.None? {
        return Raised;
      }
      var record := Grant(Cut(clientId, 128), Cut(clientName, 80), now.Floor, now.Floor + ttl);
      var ok := Write(grants.value[address := record], written);
      return if ok then Returned(record) else Raised;
    }

    /** Only a grant that has not run out yet can be renewed. */
    method Renew(address: Address, now: real, written: bool) returns (r: Outcome<Option<Grant>>)
      modifies this
      ensures r.Raised? || r.value.None? ==> file == old(file)
      ensures r.Returned? && r.value.Some? ==>
                && required && old(file).Some? && Allows(old(file), address, now)
                && file == Some(Grants(old(file).value.grants[address := r.value.value]))
                && r.value.value == old(file).value.grants[address].(expiresAt := now.Floor + ttl)
      ensures address != "" && required && old(file).Some? && Allows(old(file), address, now) && written ==>
                r.Returned? && r.value.Some?
      ensures address == "" || !required ==> r == Returned(None)
      ensures address != "" && required && old(file) == Some(Corrupt) ==> r == Raised
      ensures address != "" && required && old(file) == None ==> r == Returned(None)
      ensures address != "" && required && old(file) != Some(Corrupt) && !Allows(old(file), address, now) ==>
                r == Returned(None)
    {
      if address == "" || !required {
        return Returned(None);
      }
      var grants := ReadStrict(file);
      if grants.None? {
        return Raised;
      }
      if address !in grants.value || grants.value[address].expiresAt as real <= now {
        return Returned(None);
      }
      var record := grants.value[address].(expiresAt := now.Floor + ttl);
      var ok := Write(grants.value[address := record], written);
      return if ok then Returned(Some(record)) else Raised;
    }

    /** The empty address stands for all of them. */
    method Revoke(address: Address, written: bool) returns (r: Outcome<nat>)
      modifies this
      ensures old(file) == Some(Corrupt) ==> r == Raised
      ensures r.Raised? ==> file == old(file)
      ensures r.Returned? && required ==>
                var was := ReadStrict(old(file)).value;
                && file.Some? && file.value.Grants?
                && (address == "" ==> file.value.grants == map[] && r.value == |was|)
                && (address != "" ==>
                      && address !in file.value.grants && OthersKept(was, file.value.grants, address)
                      && r.value == if address in was then 1 else 0)
      ensures r.Returned? && required && address != "" ==> forall t :: !Allows(file, address, t)
      ensures old(file) != Some(Corrupt) && (written || !required) ==> r.Returned?
      ensures r.Returned? ==>
                var was := ReadStrict(old(file)).value;
                r.value == if address == "" then |was| else if address in was then 1 else 0
      ensures !required && written && r.Returned? ==> file == None
    {
      var grants := ReadStrict(file);
      if grants.None? {
        return Raised;
      }
      var left, removed := map[], |grants.value|;
      if address != "" {
        left := grants.value - {address};
        removed := if address in grants.value then 1 else 0;
      }
      var ok := Write(left, written);
      return if ok then Returned(removed) else Raised;
    }
  }
}
