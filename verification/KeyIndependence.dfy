/** Interleaved messages do not disturb each other: the reassembler treats each assembly key as if it
    were alone, as long as the limits shared by all keys are not reached. */
module KeyIndependence {
  import opened Wrappers
  import opened JsonValues
  import opened Segmentation
  import opened Reassembler
  import opened ReassemblerRuns

  /** The assembly that an envelope is for. */
  function KeyOf(envelope: Json): Option<string> {
    if envelope.StringField("type") != Some("server_message_chunk") then None
    else
      match ReadKey(envelope)
      case Ok(key) => Some(key)
      case Err(_) => None
  }

  ghost predicate SameAt(a: Buffer, b: Buffer, key: string) {
    && (key in a.assemblies <==> key in b.assemblies)
    && (key in a.assemblies ==> a.assemblies[key] == b.assemblies[key])
  }

  /** The envelope is turned away for want of an assembly slot or of shared buffer space. */
  predicate HitsGlobalLimit(wire: Wire, buffer: Buffer, envelope: Json) {
    && envelope.StringField("type") == Some("server_message_chunk")
    && ReadHeader(wire, envelope).Ok?
    && var header := ReadHeader(wire, envelope).value;
       var entry := Entry(buffer, header, envelope.fields);
       || TooMany(buffer, header)
       || (&& Agrees(entry, header)
           && entry.chunks[header.id].None?
           && SaturatingAdd(entry.receivedBytes, |header.chunk|) <= entry.messageSize
           && OverBuffer(buffer, header))
  }

  /** A step on one key, successful or not, leaves every other key's assembly alone. */
  lemma OtherKeysUntouched(wire: Wire, buffer: Buffer, envelope: Json, key: string)
    requires KeyOf(envelope) != Some(key)
    ensures SameAt(ObserveStep(wire, buffer, envelope).0, buffer, key)
  {
    hide ReadHeader, Complete, Rebuild, SaturatingAdd, SaturatingSub;
  }

  lemma AloneHasRoom(buffer: Buffer, alone: Buffer, key: string)
    requires Coherent(buffer) && Coherent(alone)
    requires SameAt(buffer, alone, key) && alone.assemblies.Keys <= {key}
    ensures alone.bufferedBytes <= buffer.bufferedBytes
    ensures key !in alone.assemblies ==> |alone.assemblies| == 0
  {
    if key in alone.assemblies {
      TotalWithout(alone.assemblies, key);
      TotalWithout(buffer.assemblies, key);
      assert alone.assemblies - {key} == map[];
    } else {
      assert alone.assemblies == map[];
    }
  }

  lemma OwnKeyAccept(buffer: Buffer, alone: Buffer, header: Header, fields: map<string, Json>)
    requires Coherent(buffer) && Coherent(alone)
    requires SameAt(buffer, alone, header.key) && alone.assemblies.Keys <= {header.key}
    requires MetadataValid(header.id, header.count, header.size)
    requires !TooMany(buffer, header)
    requires var entry := Entry(buffer, header, fields);
             Agrees(entry, header) && entry.chunks[header.id].None?
             && SaturatingAdd(entry.receivedBytes, |header.chunk|) <= entry.messageSize
             ==> !OverBuffer(buffer, header)
    ensures Accept(buffer, header, fields).1 == Accept(alone, header, fields).1
    ensures SameAt(Accept(buffer, header, fields).0, Accept(alone, header, fields).0, header.key)
    ensures Accept(alone, header, fields).0.assemblies.Keys <= {header.key}
  {
    hide Coherent, Complete, SaturatingSub;
    AloneHasRoom(buffer, alone, header.key);
    assert !TooMany(alone, header);
    assert OverBuffer(alone, header) ==> OverBuffer(buffer, header);
  }

  lemma OwnKeyStep(wire: Wire, buffer: Buffer, alone: Buffer, envelope: Json, key: string)
    requires Coherent(buffer) && Coherent(alone)
    requires SameAt(buffer, alone, key) && alone.assemblies.Keys <= {key}
    requires KeyOf(envelope) == Some(key) && !HitsGlobalLimit(wire, buffer, envelope)
    ensures ObserveStep(wire, buffer, envelope).1 == ObserveStep(wire, alone, envelope).1
    ensures SameAt(ObserveStep(wire, buffer, envelope).0, ObserveStep(wire, alone, envelope).0, key)
    ensures ObserveStep(wire, alone, envelope).0.assemblies.Keys <= {key}
  {
    hide ReadHeader;
    hide Accept;
    if ReadHeader(wire, envelope).Ok? {
      OwnKeyAccept(buffer, alone, ReadHeader(wire, envelope).value, envelope.fields);
    }
  }

  // ---------- Whole runs ----------

  /** The outcomes of the envelopes for one key, in a run that mixes keys. */
  function OutcomesFor(wire: Wire, buffer: Buffer, run: seq<Json>, key: string): seq<Outcome>
    decreases |run|
  {
    if run == [] then []
    else
      var (next, outcome) := ObserveStep(wire, buffer, run[0]);
      (if KeyOf(run[0]) == Some(key) then [outcome] else []) + OutcomesFor(wire, next, run[1..], key)
  }

  function OnlyKey(run: seq<Json>, key: string): seq<Json> {
    if run == [] then []
    else (if KeyOf(run[0]) == Some(key) then [run[0]] else []) + OnlyKey(run[1..], key)
  }

  predicate WithinGlobalLimits(wire: Wire, buffer: Buffer, run: seq<Json>)
    decreases |run|
  {
    run == [] ||
    (&& !HitsGlobalLimit(wire, buffer, run[0])
     && WithinGlobalLimits(wire, ObserveStep(wire, buffer, run[0]).0, run[1..]))
  }

  /** In any run that does not reach the shared limits, the outcomes for one key are those of a
      reassembler that is fed only that key's envelopes. */
  lemma {:induction false} KeysAreIndependent(wire: Wire, buffer: Buffer, alone: Buffer, run: seq<Json>, key: string)
    requires Coherent(buffer) && Coherent(alone)
    requires SameAt(buffer, alone, key) && alone.assemblies.Keys <= {key}
    requires WithinGlobalLimits(wire, buffer, run)
    ensures OutcomesFor(wire, buffer, run, key) == Outcomes(wire, alone, OnlyKey(run, key))
    decreases |run|
  {
    if run != [] {
      hide ObserveStep;
      var next := ObserveStep(wire, buffer, run[0]).0;
      ObserveKeepsCoherence(wire, buffer, run[0]);
      if KeyOf(run[0]) == Some(key) {
        OwnKeyStep(wire, buffer, alone, run[0], key);
        ObserveKeepsCoherence(wire, alone, run[0]);
        KeysAreIndependent(wire, next, ObserveStep(wire, alone, run[0]).0, run[1..], key);
        assert OnlyKey(run, key)[1..] == OnlyKey(run[1..], key);
      } else {
        OtherKeysUntouched(wire, buffer, run[0], key);
        KeysAreIndependent(wire, next, alone, run[1..], key);
        assert OnlyKey(run, key) == OnlyKey(run[1..], key);
      }
    }
  }
}
