/**
 * Destinations of the catalog: the locked operations that edit records in place, and the
 * verification whose network probe runs between two locked sections.
 */
module Catalog {
  import opened Prelude

  type Id = string

  /**
   * A server URL: its scheme as written, the rest of the text, and the verdict of the check for
   * embedded credentials, which is a function of the text.
   */
  datatype Url = Url(scheme: string, rest: string, safe: bool)

  datatype Status = Unverified | Verified | Failed

  datatype Transport = Transport(protocol: string, peer: string, elapsedMs: int)

  datatype Destination = Destination(
    id: Id, user: string, kind: string, name: string, url: Url, secretRef: string, enabled: bool,
    status: Status, lastVerifiedAt: Option<real>, lastError: Option<string>, transport: Option<Transport>,
    createdAt: real, updatedAt: real)

  type Destinations = map<Id, Destination>

  datatype CatalogError = UnsafeUrl | StateError | NotFound | VerifyFailed(reason: string)

  datatype Patch = Patch(name: Option<string>, url: Option<Url>, secretRef: Option<string>, enabled: Option<bool>)

  /** What the network probe of a URL comes back with. */
  datatype Probe = Reached(transport: Transport) | Refused(reason: string) | Crashed

  const TYPE_MISMATCH := "destination type does not match server URL scheme"
  const PROBE_CRASHED := "destination verification failed"
  const PROTOCOL_MISMATCH := "destination probe protocol does not match destination type"
  const CHANGED := "destination changed during verification"

  function Lower(s: string): (r: string)
    ensures |r| == |s|
  {
    seq(|s|, i requires 0 <= i < |s| => if 'A' <= s[i] <= 'Z' then (s[i] as int + 32) as char else s[i])
  }

  /** Two texts are the same in lower case exactly when they differ at most in the case of ASCII letters. */
  lemma {:induction false} LowerIgnoresCase(s: string, t: string)
    ensures Lower(s) == Lower(t) <==> |s| == |t| && forall i :: 0 <= i < |s| ==> SameLetter(s[i], t[i])
  {
    if Lower(s) == Lower(t) {
      forall i | 0 <= i < |s| ensures SameLetter(s[i], t[i]) {
        assert Lower(s)[i] == Lower(t)[i];
      }
    }
  }

  predicate SameLetter(a: char, b: char) {
    || a == b
    || ('A' <= a <= 'Z' && b as int == a as int + 32)
    || ('A' <= b <= 'Z' && a as int == b as int + 32)
  }

  function Clip(s: string): string {
    if |s| <= 200 then s else s[..200]
  }

  /** What the reader of the stored catalog demands of a destination record. */
  predicate ValidRecord(id: Id, d: Destination) {
    && id != "" && d.id == id && d.user != "" && d.kind != "" && d.name != "" && d.secretRef != ""
    && (d.url.scheme != "" || d.url.rest != "") && d.url.safe
    && d.createdAt >= 0.0 && d.updatedAt >= 0.0
    && (d.lastVerifiedAt.Some? ==> d.lastVerifiedAt.value >= 0.0)
  }

  predicate ValidCatalog(ds: Destinations) {
    forall id :: id in ds ==> ValidRecord(id, ds[id])
  }

  predicate Owned(ds: Destinations, id: Id, user: string) {
    id in ds && ds[id].user == user
  }

  // ----- The locked sections as functions -----

  /** Publishing a changed record: refused as a whole if the reader would not accept it. */
  function Published(ds: Destinations, id: Id, d: Destination): (Destinations, Result<Destination, CatalogError>) {
    if ValidRecord(id, d) then (ds[id := d], Ok(d)) else (ds, Err(StateError))
  }

  function Blank(
      id: Id, user: string, kind: string, name: string, url: Url, secretRef: string, now: real): Destination
  {
    Destination(id, user, kind, name, url, secretRef, true, Unverified, None, None, None, now, now)
  }

  function Created(
      ds: Destinations, id: Id, user: string, kind: string, name: string, url: Url, secretRef: string, now: real)
    : (Destinations, Result<Destination, CatalogError>)
  {
    if !url.safe then (ds, Err(UnsafeUrl))
    else if !ValidCatalog(ds) || now < 0.0 then (ds, Err(StateError))
    else Published(ds, id, Blank(id, user, kind, name, url, secretRef, now))
  }

  function Patched(d: Destination, p: Patch, now: real): Destination {
    var moved := p.url.Some? && p.url.value != d.url;
    Destination(
      d.id, d.user, d.kind,
      if p.name.Some? then p.name.value else d.name,
      if p.url.Some? then p.url.value else d.url,
      if p.secretRef.Some? then p.secretRef.value else d.secretRef,
      if p.enabled.Some? then p.enabled.value else d.enabled,
      if moved then Unverified else d.status,
      if moved then None else d.lastVerifiedAt,
      if moved then None else d.lastError,
      if moved then None else d.transport,
      d.createdAt, now)
  }

  function Updated(
      ds: Destinations, id: Id, user: string, p: Patch, now: real): (Destinations, Result<Destination, CatalogError>)
  {
    if p.url.Some? && !p.url.value.safe then (ds, Err(UnsafeUrl))
    else if !ValidCatalog(ds) then (ds, Err(StateError))
    else if !Owned(ds, id, user) then (ds, Err(NotFound))
    else if now < 0.0 then (ds, Err(StateError))
    else Published(ds, id, Patched(ds[id], p, now))
  }

  function Deleted(ds: Destinations, id: Id, user: string): (Destinations, Result<(), CatalogError>) {
    if !ValidCatalog(ds) then (ds, Err(StateError))
    else if !Owned(ds, id, user) then (ds, Err(NotFound))
    else (ds - {id}, Ok(()))
  }

  /** The verdict of a verification from the URL and type it read first and the probe's result. */
  function Judge(url: Url, kind: string, probe: Probe): Result<Transport, string> {
    if Lower(url.scheme) != kind then Err(TYPE_MISMATCH)
    else
      match probe
      case Refused(reason) => Err(reason)
      case Crashed => Err(PROBE_CRASHED)
      case Reached(t) => if Lower(t.protocol) != kind then Err(PROTOCOL_MISMATCH) else Ok(t)
  }

  /** The second locked section: the verdict about `url` is written only if the record still has it. */
  function Stamped(ds: Destinations, id: Id, user: string, url: Url, verdict: Result<Transport, string>, now: real)
    : (Destinations, Result<Destination, CatalogError>)
  {
    if !ValidCatalog(ds) then (ds, Err(StateError))
    else if !Owned(ds, id, user) then (ds, Err(NotFound))
    else
      var d := ds[id];
      match verdict
      case Ok(t) =>
        if d.url != url then (ds, Err(VerifyFailed(CHANGED)))
        else if now < 0.0 then (ds, Err(StateError))
        else
          Published(ds, id, d.(status := Verified, lastVerifiedAt := Some(now), lastError := None,
                               transport := Some(t), updatedAt := now))
      case Err(reason) =>
        if d.url != url then (ds, Err(VerifyFailed(reason)))
        else if now < 0.0 then (ds, Err(StateError))
        else
          var failed := d.(status := Failed, lastError := Some(Clip(reason)), transport := None, updatedAt := now);
          if ValidRecord(id, failed) then (ds[id := failed], Err(VerifyFailed(reason))) else (ds, Err(StateError))
  }

  lemma {:induction false} ValidWithOne(ds: Destinations, id: Id, d: Destination)
    requires ValidCatalog(ds)
    ensures ValidCatalog(ds[id := d]) <==> ValidRecord(id, d)
  {
    assert ds[id := d][id] == d;
  }

  /** Changes the fields of a loaded record one by one. */
  method ApplyPatch(d: Destination, p: Patch, now: real) returns (item: Destination)
    ensures item == Patched(d, p, now)
  {
    item := d;
    if p.name.Some? {
      item := item.(name := p.name.value);
    }
    if p.url.Some? {
      if p.url.value != item.url {
        item := item.(status := Unverified);
        item := item.(lastVerifiedAt := None);
        item := item.(lastError := None);
        item := item.(transport := None);
      }
      item := item.(url := p.url.value);
    }
    if p.secretRef.Some? {
      item := item.(secretRef := p.secretRef.value);
    }
    if p.enabled.Some? {
      item := item.(enabled := p.enabled.value);
    }
    item := item.(updatedAt := now);
  }

  // ----- The store -----

  class CatalogStore {
    var destinations: Destinations

    constructor ()
      ensures destinations == map[]
    {
      destinations := map[];
    }

    /** Writes the catalog unless its own reader would refuse it. */
    method Save(ds: Destinations) returns (ok: bool)
      modifies this
      ensures ok <==> ValidCatalog(ds)
      ensures destinations == if ok then ds else old(destinations)
    {
      if !ValidCatalog(ds) {
        return false;
      }
      destinations := ds;
      return true;
    }

    method CreateDestination(id: Id, user: string, kind: string, name: string, url: Url, secretRef: string, now: real)
      returns (r: Result<Destination, CatalogError>)
      modifies this
      ensures (destinations, r) == Created(old(destinations), id, user, kind, name, url, secretRef, now)
    {
      if !url.safe {
        return Err(UnsafeUrl);
      }
      if !ValidCatalog(destinations) || now < 0.0 {
        return Err(StateError);
      }
      var item := Blank(id, user, kind, name, url, secretRef, now);
      ValidWithOne(destinations, id, item);
      var ok := Save(destinations[id := item]);
      return if ok then Ok(item) else Err(StateError);
    }

    method UpdateDestination(id: Id, user: string, p: Patch, now: real) returns (r: Result<Destination, CatalogError>)
      modifies this
      ensures (destinations, r) == Updated(old(destinations), id, user, p, now)
    {
      if p.url.Some? && !p.url.value.safe {
        return Err(UnsafeUrl);
      }
      if !ValidCatalog(destinations) {
        return Err(StateError);
      }
      if !Owned(destinations, id, user) {
        return Err(NotFound);
      }
      if now < 0.0 {
        return Err(StateError);
      }
      var item := ApplyPatch(destinations[id], p, now);
      ValidWithOne(destinations, id, item);
      var ok := Save(destinations[id := item]);
      return if ok then Ok(item) else Err(StateError);
    }

    method DeleteDestination(id: Id, user: string) returns (r: Result<(), CatalogError>)
      modifies this
      ensures (destinations, r) == Deleted(old(destinations), id, user)
    {
      if !ValidCatalog(destinations) {
        return Err(StateError);
      }
      if !Owned(destinations, id, user) {
        return Err(NotFound);
      }
      var ok := Save(destinations - {id});
      return Ok(());
    }

    /** The first locked section of a verification. */
    method ReadForVerification(id: Id, user: string) returns (r: Result<(Url, string), CatalogError>)
      ensures r.Ok? <==> ValidCatalog(destinations) && Owned(destinations, id, user)
      ensures r.Ok? ==> r.value == (destinations[id].url, Lower(destinations[id].kind))
      ensures r.Err? ==> r.error == if ValidCatalog(destinations) then NotFound else StateError
    {
      if !ValidCatalog(destinations) {
        return Err(StateError);
      }
      if !Owned(destinations, id, user) {
        return Err(NotFound);
      }
      return Ok((destinations[id].url, Lower(destinations[id].kind)));
    }

    method RecordVerificationFailure(id: Id, user: string, expected: Url, reason: string, now: real)
      returns (r: Result<Destination, CatalogError>)
      modifies this
      ensures (destinations, r) == Stamped(old(destinations), id, user, expected, Err(reason), now)
    {
      if !ValidCatalog(destinations) {
        return Err(StateError);
      }
      if !Owned(destinations, id, user) {
        return Err(NotFound);
      }
      var item := destinations[id];
      if item.url != expected {
        return Err(VerifyFailed(reason));
      }
      if now < 0.0 {
        return Err(StateError);
      }
      item := item.(status := Failed);
      item := item.(lastError := Some(Clip(reason)));
      item := item.(transport := None);
      item := item.(updatedAt := now);
      ValidWithOne(destinations, id, item);
      var ok := Save(destinations[id := item]);
      return Err(if ok then VerifyFailed(reason) else StateError);
    }

    method RecordVerificationSuccess(id: Id, user: string, url: Url, t: Transport, now: real)
      returns (r: Result<Destination, CatalogError>)
      modifies this
      ensures (destinations, r) == Stamped(old(destinations), id, user, url, Ok(t), now)
    {
      if !ValidCatalog(destinations) {
        return Err(StateError);
      }
      if !Owned(destinations, id, user) {
        return Err(NotFound);
      }
      var current := destinations[id];
      if current.url != url {
        return Err(VerifyFailed(CHANGED));
      }
      if now < 0.0 {
        return Err(StateError);
      }
      current := current.(status := Verified);
      current := current.(lastVerifiedAt := Some(now));
      current := current.(lastError := None);
      current := current.(transport := Some(t));
      current := current.(updatedAt := now);
      ValidWithOne(destinations, id, current);
      var ok := Save(destinations[id := current]);
      return if ok then Ok(current) else Err(StateError);
    }

    /** A verification without interference between its two locked sections. */
    method VerifyDestination(
        id: Id, user: string, probe: Probe, now: real) returns (r: Result<Destination, CatalogError>)
      modifies this
      ensures var ds := old(destinations);
              if ValidCatalog(ds) && Owned(ds, id, user) then
                var url, kind := ds[id].url, Lower(ds[id].kind);
                (destinations, r) == Stamped(ds, id, user, url, Judge(url, kind, probe), now)
              else destinations == ds && r == Err(if ValidCatalog(ds) then NotFound else StateError)
    {
      var first := ReadForVerification(id, user);
      if first.Err? {
        return Err(first.error);
      }
      var (url, kind) := first.value;
      var verdict := Judge(url, kind, probe);
      match verdict
      case Ok(t) => r := RecordVerificationSuccess(id, user, url, t, now);
      case Err(reason) => r := RecordVerificationFailure(id, user, url, reason, now);
    }
  }
}
