/**
 * The process service: the loaded folder and track, the registered progress
 * callbacks, and the batch run that writes the nearest track sample into
 * every photo lacking a position.
 */
module Service {
  import opened Wrappers
  import opened Typings
  import opened MissingGps
  import opened Closest
  import opened Observers
  import opened ProcessEvents
  import opened Seqs

  class ProcessService {
    var folderData: Option<FolderData>
    var csvData: Option<CSVData>
    var updateCallbacks: seq<Callback>
    /** Every callback invocation made so far, in order. */
    var deliveries: seq<Delivery>
    /** Every metadata write and every value handed to `TriggerUpdate` so far, in the order they happened. */
    ghost var effects: seq<Effect>

    /** The loaded track is sorted by time, as the loader leaves it. */
    ghost predicate Valid()
      reads this
    {
      csvData.Some? ==> SortedByTime(csvData.value.locationDataList)
    }

    /** Every value handed to `TriggerUpdate` so far, in order. */
    ghost function Published(): seq<ProcessProgressData>
      reads this
    {
      Publishes(effects)
    }

    constructor ()
      ensures Valid()
      ensures folderData.None? && csvData.None?
      ensures updateCallbacks == [] && deliveries == [] && effects == [] && Published() == []
    {
      folderData := None;
      csvData := None;
      updateCallbacks := [];
      deliveries := [];
      effects := [];
    }

    /** Stores the folder and publishes `{processed: 0, total}` with the number of photos lacking a position. */
    method SetFolderData(data: FolderData)
      modifies this`folderData, this`deliveries, this`effects
      ensures folderData == Some(data)
      ensures var total := if data.fileList.Some? then |FilterMissing(data.fileList.value)| else 0;
        && Published() == old(Published()) + [ProcessProgressData(0, total)]
        && effects == old(effects) + [Publish(ProcessProgressData(0, total))]
        && deliveries == old(deliveries) + Broadcast(updateCallbacks, ProcessProgressData(0, total))
    {
      folderData := Some(data);
      var missing := MissingGPSPhotos();
      var total := if missing.Some? then |missing.value| else 0;
      TriggerUpdate(ProcessProgressData(0, total));
    }

    /** Stores the track; nothing is published. */
    method SetCsvData(data: CSVData)
      requires SortedByTime(data.locationDataList)
      modifies this`csvData
      ensures csvData == Some(data) && Valid()
    {
      csvData := Some(data);
    }

    /** The photos of the loaded folder that lack a position, or `None` when no folder or no list is loaded. */
    function MissingGPSPhotos(): (r: Option<seq<FolderFile>>)
      reads this
      ensures r.None? <==> folderData.None? || folderData.value.fileList.None?
      ensures r.Some? ==> forall f :: f in r.value <==> f in folderData.value.fileList.value && LacksGps(f)
    {
      if folderData.None? || folderData.value.fileList.None? then None
      else Some(FilterMissing(folderData.value.fileList.value))
    }

    /** The sample nearest in time to `time`, or `None` when no track or an empty one is loaded. */
    method GetClosetLocation(time: int) returns (r: Option<LocationData>)
      requires Valid()
      ensures r.Some? <==> csvData.Some? && |csvData.value.locationDataList| > 0
      ensures r.Some? ==> IsEarliestNearest(csvData.value.locationDataList, time, r.value)
    {
      if csvData.None? || |csvData.value.locationDataList| == 0 {
        return None;
      }
      r := ClosestLocation(csvData.value.locationDataList, time);
    }

    /**
     * The batch run. `writeSucceeds(i)` is the outcome of the metadata write
     * for the photo at position `i` of the missing list; `attempts` lists the
     * writes made.
     */
    method Process(writeSucceeds: nat -> bool) returns (attempts: seq<WriteAttempt>)
      requires Valid()
      modifies this`deliveries, this`effects
      ensures folderData.None? || csvData.None? || folderData.value.fileList.None? ==>
        && Published() == old(Published())
        && effects == old(effects)
        && deliveries == old(deliveries)
        && attempts == []
      ensures folderData.Some? && csvData.Some? && folderData.value.fileList.Some? ==>
        var photos := FilterMissing(folderData.value.fileList.value);
        var track := csvData.value.locationDataList;
        var events := RunEvents(photos, |track| > 0, writeSucceeds);
        && Published() == old(Published()) + events
        && deliveries == old(deliveries) + Fanout(updateCallbacks, events)
        && AttemptsUpTo(attempts, photos, track, writeSucceeds, |photos|)
        && effects == old(effects) + [Publish(ProcessProgressData(0, |photos|))] + AttemptEffects(attempts, |photos|)
    {
      if folderData.None? || csvData.None? {
        return [];
      }
      var missing := MissingGPSPhotos();
      if missing.None? {
        return [];
      }
      var photos := missing.value;
      ghost var track := csvData.value.locationDataList;
      var first := ProcessProgressData(0, |photos|);
      TriggerUpdate(first);
      ghost var rest := ProgressUpTo(photos, |photos|, |track| > 0, writeSucceeds);
      ghost var fanFirst := Broadcast(updateCallbacks, first);
      attempts := ProcessPhotos(photos, writeSucceeds);
      PublishesAppend(old(effects) + [Publish(first)], AttemptEffects(attempts, |photos|));
      AppendAssoc(old(Published()), [first], rest);
      FanoutSingle(updateCallbacks, first);
      FanoutAppend(updateCallbacks, [first], rest);
      AppendAssoc(old(deliveries), fanFirst, Fanout(updateCallbacks, rest));
      AppendAssoc(old(effects), [Publish(first)], AttemptEffects(attempts, |photos|));
    }

    /** The loop of the batch run over the photos lacking a position, with their positions in that list. */
    method ProcessPhotos(photos: seq<FolderFile>, writeSucceeds: nat -> bool) returns (attempts: seq<WriteAttempt>)
      requires Valid() && csvData.Some?
      modifies this`deliveries, this`effects
      ensures var events := ProgressUpTo(photos, |photos|, |csvData.value.locationDataList| > 0, writeSucceeds);
        && deliveries == old(deliveries) + Fanout(updateCallbacks, events)
        && AttemptsUpTo(attempts, photos, csvData.value.locationDataList, writeSucceeds, |photos|)
        && effects == old(effects) + AttemptEffects(attempts, |photos|)
        && Publishes(AttemptEffects(attempts, |photos|)) == events
    {
      ghost var track := csvData.value.locationDataList;
      ghost var events: seq<ProcessProgressData> := [];
      attempts := [];
      for index := 0 to |photos|
        invariant RunSoFar(updateCallbacks, old(deliveries), old(effects), photos, track, writeSucceeds,
                           index, events, attempts, deliveries, effects)
      {
        ghost var before := deliveries;
        ghost var beforeEffects := effects;
        var attempt := HandlePhoto(photos, index, writeSucceeds);
        ghost var news := if Emits(photos, index, |track| > 0, writeSucceeds) then [ProcessProgressData(index + 1, |photos|)] else [];
        RunStep(updateCallbacks, old(deliveries), old(effects), photos, track, writeSucceeds,
                index, events, attempts, before, beforeEffects, attempt, deliveries, effects);
        attempts := attempts + Made(attempt);
        events := events + news;
      }
    }

    /**
     * One iteration of the batch run, for the photo at position `index` of the
     * missing list: no write without a capture time or a match; otherwise the
     * write of the nearest sample, followed on success by `{index + 1, total}`.
     */
    method HandlePhoto(photos: seq<FolderFile>, index: nat, writeSucceeds: nat -> bool) returns (attempt: Option<WriteAttempt>)
      requires Valid() && csvData.Some? && index < |photos|
      modifies this`deliveries, this`effects
      ensures var track := csvData.value.locationDataList;
        && (attempt.Some? <==> photos[index].metadata.dateTimeOriginal.Some? && |track| > 0)
        && (attempt.Some? ==> attempt.value.index == index && AttemptFor(attempt.value, photos, track, writeSucceeds))
      ensures var news := if Emits(photos, index, |csvData.value.locationDataList| > 0, writeSucceeds)
                          then [ProcessProgressData(index + 1, |photos|)] else [];
        && deliveries == old(deliveries) + Fanout(updateCallbacks, news)
      ensures effects == old(effects) + EffectsOf(attempt, |photos|)
    {
      var photo := photos[index];
      if photo.metadata.dateTimeOriginal.None? {
        return None;
      }
      var location := GetClosetLocation(photo.metadata.dateTimeOriginal.value);
      if location.None? {
        return None;
      }
      var ok := writeSucceeds(index);
      var written := WriteAttempt(index, photo.filePath, location.value, ok);
      effects := effects + [Write(written)];
      attempt := Some(written);
      if !ok {
        return;
      }
      var event := ProcessProgressData(index + 1, |photos|);
      TriggerUpdate(event);
      FanoutSingle(updateCallbacks, event);
      AppendAssoc(old(effects), [Write(written)], [Publish(event)]);
    }

    /** Appends `callback` to the registered callbacks. */
    method OnProcessUpdate(callback: Callback)
      modifies this`updateCallbacks
      ensures updateCallbacks == old(updateCallbacks) + [callback]
    {
      updateCallbacks := updateCallbacks + [callback];
    }

    /** Calls every registered callback once with `data`, in registration order. */
    method TriggerUpdate(data: ProcessProgressData)
      modifies this`deliveries, this`effects
      ensures effects == old(effects) + [Publish(data)]
      ensures Published() == old(Published()) + [data]
      ensures deliveries == old(deliveries) + Broadcast(updateCallbacks, data)
    {
      for i := 0 to |updateCallbacks|
        invariant deliveries == old(deliveries) + Broadcast(updateCallbacks[..i], data)
        invariant effects == old(effects)
      {
        deliveries := deliveries + [Delivery(updateCallbacks[i], data)];
        assert updateCallbacks[..i + 1][..i] == updateCallbacks[..i];
      }
      assert updateCallbacks[..|updateCallbacks|] == updateCallbacks;
      effects := effects + [Publish(data)];
      assert effects[..|effects| - 1] == old(effects);
    }
  }

  /**
   * What the batch loop has done after the photos before `index`: the
   * callbacks got the events of those photos, the writes made for them are
   * complete, and the effects are those writes with their publications.
   */
  ghost predicate RunSoFar(callbacks: seq<Callback>, startDeliveries: seq<Delivery>, startEffects: seq<Effect>,
                           photos: seq<FolderFile>, track: seq<LocationData>, writeSucceeds: nat -> bool, index: nat,
                           events: seq<ProcessProgressData>, attempts: seq<WriteAttempt>,
                           deliveries: seq<Delivery>, effects: seq<Effect>)
  {
    && index <= |photos|
    && events == ProgressUpTo(photos, index, |track| > 0, writeSucceeds)
    && deliveries == startDeliveries + Fanout(callbacks, events)
    && AttemptsUpTo(attempts, photos, track, writeSucceeds, index)
    && effects == startEffects + AttemptEffects(attempts, |photos|)
    && Publishes(AttemptEffects(attempts, |photos|)) == events
  }

  /** Handling photo `index` as `HandlePhoto` promises takes the loop one photo further. */
  lemma {:induction false} RunStep(callbacks: seq<Callback>, startDeliveries: seq<Delivery>, startEffects: seq<Effect>,
                                   photos: seq<FolderFile>, track: seq<LocationData>, writeSucceeds: nat -> bool, index: nat,
                                   events: seq<ProcessProgressData>, attempts: seq<WriteAttempt>,
                                   deliveries: seq<Delivery>, effects: seq<Effect>,
                                   attempt: Option<WriteAttempt>, deliveries': seq<Delivery>, effects': seq<Effect>)
    requires index < |photos|
    requires RunSoFar(callbacks, startDeliveries, startEffects, photos, track, writeSucceeds,
                      index, events, attempts, deliveries, effects)
    requires attempt.Some? <==> photos[index].metadata.dateTimeOriginal.Some? && |track| > 0
    requires attempt.Some? ==> attempt.value.index == index && AttemptFor(attempt.value, photos, track, writeSucceeds)
    requires var news := if Emits(photos, index, |track| > 0, writeSucceeds) then [ProcessProgressData(index + 1, |photos|)] else [];
      deliveries' == deliveries + Fanout(callbacks, news)
    requires effects' == effects + EffectsOf(attempt, |photos|)
    ensures var news := if Emits(photos, index, |track| > 0, writeSucceeds) then [ProcessProgressData(index + 1, |photos|)] else [];
      RunSoFar(callbacks, startDeliveries, startEffects, photos, track, writeSucceeds,
               index + 1, events + news, attempts + Made(attempt), deliveries', effects')
  {
    var news := if Emits(photos, index, |track| > 0, writeSucceeds) then [ProcessProgressData(index + 1, |photos|)] else [];
    ProgressUpToStep(photos, index, |track| > 0, writeSucceeds);
    FanoutAppend(callbacks, events, news);
    AppendAssoc(startDeliveries, Fanout(callbacks, events), Fanout(callbacks, news));
    AttemptsStep(attempts, attempt, photos, track, writeSucceeds, index);
    EffectsStep(attempts, attempt, photos, |track| > 0, writeSucceeds, index);
    AppendAssoc(startEffects, AttemptEffects(attempts, |photos|), EffectsOf(attempt, |photos|));
  }
}
