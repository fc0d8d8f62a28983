/**
 * `AzureLogger`: a client of an append-blob container that remembers which
 * blob names it knows to exist (`existing_log_files`), creates a blob the
 * first time it writes to an unknown name, and appends text to it.
 *
 * The remote container is abstract: a map from blob name to its text, and a
 * count of the blobs the service created per name. Whether a remote call
 * succeeds is a parameter (`Faults`).
 */
module AzureSink {
  import opened Wrappers

  /** The remote container: text of each blob, and how many times each name was created. */
  datatype Service = Service(blobs: map<string, string>, creates: multiset<string>)

  /** One entry of the container listing returned by `list_blobs`. */
  datatype BlobItem = BlobItem(name: string)

  /** The client: the connection (`None` when not connected) and the known blob names, in order. */
  datatype AzureLogger = AzureLogger(service: Option<Service>, existing: seq<string>)

  /** Which remote calls of one `log` raise. */
  datatype Faults = Faults(createFails: bool, appendFails: bool)

  const NoFaults := Faults(false, false)

  /** Why `log` raised: no connection, or a remote call failed. */
  datatype SinkError = NotConnected | CreateFailed | AppendFailed

  /** The client after a `log` call, and what the call returned or raised. */
  datatype Outcome = Outcome(logger: AzureLogger, result: Result<bool, SinkError>)

  /** `create_blob`: makes an empty append blob, replacing any blob of that name. */
  function Create(svc: Service, name: string): (r: Service)
    ensures r.blobs.Keys == svc.blobs.Keys + {name}
    ensures r.blobs[name] == ""
    ensures forall n :: n in svc.blobs && n != name ==> n in r.blobs && r.blobs[n] == svc.blobs[n]
    ensures r.creates == svc.creates + multiset{name}
  {
    Service(svc.blobs[name := ""], svc.creates + multiset{name})
  }

  /** `append_blob_from_text` on an existing blob: the text goes at the end, unchanged. */
  function Append(svc: Service, name: string, text: string): (r: Service)
    requires name in svc.blobs
    ensures r.blobs.Keys == svc.blobs.Keys
    ensures r.blobs[name] == svc.blobs[name] + text
    ensures forall n :: n in svc.blobs && n != name ==> r.blobs[n] == svc.blobs[n]
    ensures r.creates == svc.creates
  {
    svc.(blobs := svc.blobs[name := svc.blobs[name] + text])
  }

  /** The text of a blob as seen through the client; an absent blob reads as empty. */
  function Content(lg: AzureLogger, name: string): string
  {
    if lg.service.Some? && name in lg.service.value.blobs then lg.service.value.blobs[name] else ""
  }

  /** How many times the service created each name; nothing when not connected. */
  function Creates(lg: AzureLogger): multiset<string>
  {
    if lg.service.Some? then lg.service.value.creates else multiset{}
  }

  /** The known names are exactly the blobs of the container. */
  ghost predicate Coherent(lg: AzureLogger)
  {
    lg.service.Some? ==> forall n :: n in lg.existing <==> n in lg.service.value.blobs
  }

  /** The listing names exactly the blobs of the container. */
  ghost predicate ListsAll(listed: seq<BlobItem>, svc: Service)
  {
    forall n :: n in svc.blobs <==> exists i :: 0 <= i < |listed| && listed[i].name == n
  }

  /**
   * `connect` after the service object is built: `existing_log_files` is
   * filled with the names `list_blobs` returned, in listing order.
   */
  method Connect(svc: Service, listed: seq<BlobItem>) returns (lg: AzureLogger)
    ensures lg.service == Some(svc)
    ensures |lg.existing| == |listed|
    ensures forall i :: 0 <= i < |listed| ==> lg.existing[i] == listed[i].name
    ensures ListsAll(listed, svc) ==> Coherent(lg)
  {
    var names: seq<string> := [];
    for i := 0 to |listed|
      invariant |names| == i
      invariant forall k :: 0 <= k < i ==> names[k] == listed[k].name
    {
      names := names + [listed[i].name];
    }
    lg := AzureLogger(Some(svc), names);
    if ListsAll(listed, svc) {
      forall n
        ensures n in names <==> n in svc.blobs
      {
        if n in names {
          var k :| 0 <= k < |names| && names[k] == n;
          assert listed[k].name == n;
        }
        if n in svc.blobs {
          var k :| 0 <= k < |listed| && listed[k].name == n;
          assert names[k] == n;
        }
      }
    }
  }

  /**
   * `AzureLogger.log(text, blob_name)`: raises when not connected; creates the
   * blob and records its name when the name is not yet known; then appends
   * the text and returns `True`.
   */
  function Log(lg: AzureLogger, text: string, blobName: string, f: Faults): (o: Outcome)
    ensures lg.service.None? ==> o == Outcome(lg, Failure(NotConnected))
    ensures o.logger.service.Some? == lg.service.Some?
    ensures o.logger.existing == lg.existing
            || (blobName !in lg.existing && o.logger.existing == lg.existing + [blobName])
    ensures o.result.Success? ==> o.result.value && blobName in o.logger.existing
    ensures o.result.Success? ==>
              Content(o.logger, blobName)
              == (if blobName in lg.existing then Content(lg, blobName) else "") + text
    ensures forall n :: n != blobName ==> Content(o.logger, n) == Content(lg, n)
    ensures blobName in lg.existing ==> Creates(o.logger) == Creates(lg)
    ensures Creates(o.logger) == Creates(lg)
            || (blobName !in lg.existing && blobName in o.logger.existing
                && Creates(o.logger) == Creates(lg) + multiset{blobName})
    ensures Coherent(lg) ==> Coherent(o.logger)
    ensures Coherent(lg) && o.result.Failure? ==> forall n :: Content(o.logger, n) == Content(lg, n)
    ensures Coherent(lg) && lg.service.Some? && f == NoFaults ==> o.result.Success?
  {
    match lg.service
    case None => Outcome(lg, Failure(NotConnected))
    case Some(svc) =>
      if blobName !in lg.existing && f.createFails then Outcome(lg, Failure(CreateFailed))
      else
        var known := blobName in lg.existing;
        var svc1 := if known then svc else Create(svc, blobName);
        var existing1 := if known then lg.existing else lg.existing + [blobName];
        if f.appendFails || blobName !in svc1.blobs then
          Outcome(AzureLogger(Some(svc1), existing1), Failure(AppendFailed))
        else
          Outcome(AzureLogger(Some(Append(svc1, blobName, text)), existing1), Success(true))
  }

  /** One `log` call a caller makes: text, target blob, and how the remote calls behave. */
  datatype Call = Call(text: string, blobName: string, faults: Faults)

  /** The client after a sequence of `log` calls, in order. */
  function LogMany(lg: AzureLogger, calls: seq<Call>): (r: AzureLogger)
    ensures r.service.Some? == lg.service.Some?
    ensures |lg.existing| <= |r.existing| && r.existing[..|lg.existing|] == lg.existing
    decreases |calls|
  {
    if |calls| == 0 then lg
    else
      var c := calls[0];
      LogMany(Log(lg, c.text, c.blobName, c.faults).logger, calls[1..])
  }

  /**
   * However many `log` calls run, each blob name is created at most once, and
   * never when it was already known.
   */
  lemma {:induction false} AtMostOneCreate(lg: AzureLogger, calls: seq<Call>)
    ensures forall n :: Creates(LogMany(lg, calls))[n] <= Creates(lg)[n] + 1
    ensures forall n :: n in lg.existing ==> Creates(LogMany(lg, calls))[n] == Creates(lg)[n]
  {
    CreatesBound(lg, calls);
  }

  lemma {:induction false} CreatesBound(lg: AzureLogger, calls: seq<Call>)
    ensures forall n ::
      || Creates(LogMany(lg, calls))[n] == Creates(lg)[n]
      || (Creates(LogMany(lg, calls))[n] == Creates(lg)[n] + 1
          && n !in lg.existing && n in LogMany(lg, calls).existing)
    decreases |calls|
  {
    if |calls| > 0 {
      var c := calls[0];
      var lg1 := Log(lg, c.text, c.blobName, c.faults).logger;
      var r := LogMany(lg, calls);
      assert r == LogMany(lg1, calls[1..]);
      CreatesBound(lg1, calls[1..]);
      forall n
        ensures || Creates(r)[n] == Creates(lg)[n]
                || (Creates(r)[n] == Creates(lg)[n] + 1 && n !in lg.existing && n in r.existing)
      {
        if Creates(lg1)[n] != Creates(lg)[n] {
          assert n == c.blobName && n in lg1.existing;
          assert n in r.existing by {
            var k :| 0 <= k < |lg1.existing| && lg1.existing[k] == n;
            assert r.existing[k] == n;
          }
        } else if Creates(r)[n] != Creates(lg1)[n] {
          assert n !in lg1.existing;
          assert n !in lg.existing;
        }
      }
    }
  }

  /** Two `log` calls to the same blob name create that blob at most once between them. */
  lemma SameNameCreatedOnce(lg: AzureLogger, t1: string, t2: string, name: string, f1: Faults, f2: Faults)
    ensures var o2 := Log(Log(lg, t1, name, f1).logger, t2, name, f2);
            Creates(o2.logger)[name] <= Creates(lg)[name] + 1
  {
    AtMostOneCreate(lg, [Call(t1, name, f1), Call(t2, name, f2)]);
    var lg1 := Log(lg, t1, name, f1).logger;
    assert LogMany(lg, [Call(t1, name, f1), Call(t2, name, f2)]) == LogMany(lg1, [Call(t2, name, f2)]);
    assert [Call(t1, name, f1), Call(t2, name, f2)][1..] == [Call(t2, name, f2)];
    assert [Call(t2, name, f2)][1..] == [];
  }
}
