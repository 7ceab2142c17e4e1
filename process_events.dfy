/**
 * What one batch run publishes and writes, as functions of the missing-GPS
 * photo list, of whether the track has any sample, and of which writes the
 * metadata writer lets succeed.
 */
module ProcessEvents {
  import opened Wrappers
  import opened Typings
  import opened Closest
  import opened Seqs

  /** One call of the metadata writer: the photo's position in the missing list, its path, the sample written, and the outcome. */
  datatype WriteAttempt = WriteAttempt(index: nat, filePath: string, location: LocationData, succeeded: bool)

  /** The photo at position `i` is written successfully: it has a capture time, a match exists, and the write succeeds. */
  predicate Emits(photos: seq<FolderFile>, i: nat, hasTrack: bool, writeSucceeds: nat -> bool)
    requires i < |photos|
  {
    photos[i].metadata.dateTimeOriginal.Some? && hasTrack && writeSucceeds(i)
  }

  /** The events published for the first `k` photos: `{processed: i + 1, total}` for each written photo `i`. */
  function ProgressUpTo(photos: seq<FolderFile>, k: nat, hasTrack: bool, writeSucceeds: nat -> bool): seq<ProcessProgressData>
    requires k <= |photos|
  {
    if k == 0 then []
    else
      ProgressUpTo(photos, k - 1, hasTrack, writeSucceeds)
      + (if Emits(photos, k - 1, hasTrack, writeSucceeds) then [ProcessProgressData(k, |photos|)] else [])
  }

  /** Handling photo `k` extends the events of the first `k` photos by at most `{k + 1, total}`. */
  lemma {:induction false} ProgressUpToStep(photos: seq<FolderFile>, k: nat, hasTrack: bool, writeSucceeds: nat -> bool)
    requires k < |photos|
    ensures !Emits(photos, k, hasTrack, writeSucceeds) ==>
              ProgressUpTo(photos, k + 1, hasTrack, writeSucceeds) == ProgressUpTo(photos, k, hasTrack, writeSucceeds)
    ensures Emits(photos, k, hasTrack, writeSucceeds) ==>
              ProgressUpTo(photos, k + 1, hasTrack, writeSucceeds)
                == ProgressUpTo(photos, k, hasTrack, writeSucceeds) + [ProcessProgressData(k + 1, |photos|)]
  {
  }

  /** Everything a run publishes: the initial `{processed: 0, total}` and then one event per written photo. */
  function RunEvents(photos: seq<FolderFile>, hasTrack: bool, writeSucceeds: nat -> bool): seq<ProcessProgressData>
  {
    [ProcessProgressData(0, |photos|)] + ProgressUpTo(photos, |photos|, hasTrack, writeSucceeds)
  }

  /** The events for a prefix: fixed total, `processed` strictly increasing within `1..k`, and one per written photo. */
  lemma {:induction false} ProgressUpToShape(photos: seq<FolderFile>, k: nat, hasTrack: bool, writeSucceeds: nat -> bool)
    requires k <= |photos|
    ensures var p := ProgressUpTo(photos, k, hasTrack, writeSucceeds);
      && (forall j :: 0 <= j < |p| ==> p[j].total == |photos| && 1 <= p[j].processed <= k)
      && (forall i, j :: 0 <= i < j < |p| ==> p[i].processed < p[j].processed)
      && (forall i :: 0 <= i < |photos| ==>
            (ProcessProgressData(i + 1, |photos|) in p <==> i < k && Emits(photos, i, hasTrack, writeSucceeds)))
  {
    if k > 0 {
      ProgressUpToShape(photos, k - 1, hasTrack, writeSucceeds);
    }
  }

  /**
   * The event stream of a run: it starts with `{0, total}`, every event has
   * the same total, `processed` strictly increases and never exceeds the total.
   */
  lemma {:induction false} RunEventsWellFormed(photos: seq<FolderFile>, hasTrack: bool, writeSucceeds: nat -> bool)
    ensures var ev := RunEvents(photos, hasTrack, writeSucceeds);
      && ev[0] == ProcessProgressData(0, |photos|)
      && (forall j :: 0 <= j < |ev| ==> ev[j].total == |photos| && 0 <= ev[j].processed <= |photos|)
      && (forall i, j :: 0 <= i < j < |ev| ==> ev[i].processed < ev[j].processed)
  {
    ProgressUpToShape(photos, |photos|, hasTrack, writeSucceeds);
    var p := ProgressUpTo(photos, |photos|, hasTrack, writeSucceeds);
    var ev := RunEvents(photos, hasTrack, writeSucceeds);
    assert forall j :: 1 <= j < |ev| ==> ev[j] == p[j - 1];
  }

  /**
   * Photo `i` of the missing list produces the event `{i + 1, total}` exactly
   * when it has a capture time, a match exists and its write succeeds; a
   * skipped or failed photo produces none.
   */
  lemma {:induction false} EventForPhotoIff(photos: seq<FolderFile>, hasTrack: bool, writeSucceeds: nat -> bool, i: nat)
    requires i < |photos|
    ensures (ProcessProgressData(i + 1, |photos|) in RunEvents(photos, hasTrack, writeSucceeds))
        <==> Emits(photos, i, hasTrack, writeSucceeds)
  {
    ProgressUpToShape(photos, |photos|, hasTrack, writeSucceeds);
  }

  /**
   * On a non-empty list, an event with `processed == total` is published
   * exactly when the LAST photo of the list is written, whatever happened to
   * the others.
   */
  lemma {:induction false} CompletionIffLastWritten(photos: seq<FolderFile>, hasTrack: bool, writeSucceeds: nat -> bool)
    requires |photos| > 0
    ensures (exists e :: e in RunEvents(photos, hasTrack, writeSucceeds) && e.processed == e.total)
        <==> Emits(photos, |photos| - 1, hasTrack, writeSucceeds)
  {
    var ev := RunEvents(photos, hasTrack, writeSucceeds);
    RunEventsWellFormed(photos, hasTrack, writeSucceeds);
    EventForPhotoIff(photos, hasTrack, writeSucceeds, |photos| - 1);
    if e :| e in ev && e.processed == e.total {
      assert e == ProcessProgressData(|photos|, |photos|);
    }
  }

  /** When every photo has a capture time, the track has a sample and every write succeeds, the run publishes `0, 1, ..., total`. */
  lemma {:induction false} AllWrittenCountsUp(photos: seq<FolderFile>, hasTrack: bool, writeSucceeds: nat -> bool)
    requires hasTrack
    requires forall i :: 0 <= i < |photos| ==> photos[i].metadata.dateTimeOriginal.Some? && writeSucceeds(i)
    ensures |RunEvents(photos, hasTrack, writeSucceeds)| == |photos| + 1
    ensures forall j :: 0 <= j <= |photos| ==>
              RunEvents(photos, hasTrack, writeSucceeds)[j] == ProcessProgressData(j, |photos|)
  {
    AllWrittenPrefix(photos, |photos|, hasTrack, writeSucceeds);
  }

  lemma {:induction false} AllWrittenPrefix(photos: seq<FolderFile>, k: nat, hasTrack: bool, writeSucceeds: nat -> bool)
    requires k <= |photos| && hasTrack
    requires forall i :: 0 <= i < |photos| ==> photos[i].metadata.dateTimeOriginal.Some? && writeSucceeds(i)
    ensures |ProgressUpTo(photos, k, hasTrack, writeSucceeds)| == k
    ensures forall j :: 0 <= j < k ==> ProgressUpTo(photos, k, hasTrack, writeSucceeds)[j] == ProcessProgressData(j + 1, |photos|)
  {
    if k > 0 {
      AllWrittenPrefix(photos, k - 1, hasTrack, writeSucceeds);
    }
  }

  /** The attempt `a` writes, to the file of its photo, the earliest nearest sample to the photo's capture time. */
  ghost predicate AttemptFor(a: WriteAttempt, photos: seq<FolderFile>, track: seq<LocationData>, writeSucceeds: nat -> bool)
  {
    && a.index < |photos|
    && a.filePath == photos[a.index].filePath
    && photos[a.index].metadata.dateTimeOriginal.Some?
    && IsEarliestNearest(track, photos[a.index].metadata.dateTimeOriginal.value, a.location)
    && a.succeeded == writeSucceeds(a.index)
  }

  /**
   * The writes made while handling the first `upTo` photos: each is for a
   * photo with a capture time, in list order, and every such photo is
   * attempted once the track has a sample.
   */
  ghost predicate AttemptsUpTo(attempts: seq<WriteAttempt>, photos: seq<FolderFile>, track: seq<LocationData>,
                               writeSucceeds: nat -> bool, upTo: nat)
  {
    && AttemptsValid(attempts, photos, track, writeSucceeds, upTo)
    && AttemptsOrdered(attempts)
    && AttemptsCover(attempts, photos, track, upTo)
  }

  /** Every write is a correct one for a photo before `upTo`. */
  ghost predicate AttemptsValid(attempts: seq<WriteAttempt>, photos: seq<FolderFile>, track: seq<LocationData>,
                                writeSucceeds: nat -> bool, upTo: nat)
  {
    forall k :: 0 <= k < |attempts| ==>
      AttemptFor(attempts[k], photos, track, writeSucceeds) && attempts[k].index < upTo
  }

  /** The writes follow the order of the list, one per photo at most. */
  ghost predicate AttemptsOrdered(attempts: seq<WriteAttempt>)
  {
    forall k, l :: 0 <= k < l < |attempts| ==> attempts[k].index < attempts[l].index
  }

  /** Every photo before `upTo` that has a capture time is written when the track has a sample. */
  ghost predicate AttemptsCover(attempts: seq<WriteAttempt>, photos: seq<FolderFile>, track: seq<LocationData>, upTo: nat)
  {
    forall i :: 0 <= i < upTo && i < |photos| && photos[i].metadata.dateTimeOriginal.Some? && |track| > 0 ==>
      exists k :: 0 <= k < |attempts| && attempts[k].index == i
  }

  /** Handling photo `index` without a write keeps the record complete when that photo has no capture time or the track no sample. */
  lemma {:induction false} AttemptsSkip(attempts: seq<WriteAttempt>, photos: seq<FolderFile>, track: seq<LocationData>,
                     writeSucceeds: nat -> bool, index: nat)
    requires AttemptsUpTo(attempts, photos, track, writeSucceeds, index)
    requires index < |photos|
    requires photos[index].metadata.dateTimeOriginal.None? || |track| == 0
    ensures AttemptsUpTo(attempts, photos, track, writeSucceeds, index + 1)
  {
  }

  /** Recording the write for photo `a.index`, made after every earlier one, keeps the record complete one photo further. */
  lemma {:induction false} AttemptsAppend(attempts: seq<WriteAttempt>, a: WriteAttempt, photos: seq<FolderFile>,
                       track: seq<LocationData>, writeSucceeds: nat -> bool)
    requires AttemptsUpTo(attempts, photos, track, writeSucceeds, a.index)
    requires AttemptFor(a, photos, track, writeSucceeds)
    ensures AttemptsUpTo(attempts + [a], photos, track, writeSucceeds, a.index + 1)
  {
    AppendKeepsValid(attempts, a, photos, track, writeSucceeds);
    AppendKeepsOrdered(attempts, a);
    AppendKeepsCover(attempts, a, photos, track);
  }

  /** The writes made for one photo: none, or the one made. */
  function Made(attempt: Option<WriteAttempt>): seq<WriteAttempt>
  {
    if attempt.Some? then [attempt.value] else []
  }

  /** Handling photo `index` of the list keeps the record of writes complete one photo further. */
  lemma {:induction false} AttemptsStep(attempts: seq<WriteAttempt>, attempt: Option<WriteAttempt>, photos: seq<FolderFile>,
                                        track: seq<LocationData>, writeSucceeds: nat -> bool, index: nat)
    requires index < |photos|
    requires AttemptsUpTo(attempts, photos, track, writeSucceeds, index)
    requires attempt.Some? <==> photos[index].metadata.dateTimeOriginal.Some? && |track| > 0
    requires attempt.Some? ==> attempt.value.index == index && AttemptFor(attempt.value, photos, track, writeSucceeds)
    ensures AttemptsUpTo(attempts + Made(attempt), photos, track, writeSucceeds, index + 1)
  {
    if attempt.None? {
      assert attempts + Made(attempt) == attempts;
      AttemptsSkip(attempts, photos, track, writeSucceeds, index);
    } else {
      AttemptsAppend(attempts, attempt.value, photos, track, writeSucceeds);
    }
  }

  /** The effects of the write made for one photo, if any. */
  function EffectsOf(attempt: Option<WriteAttempt>, total: nat): seq<Effect>
  {
    if attempt.Some? then WriteEffects(attempt.value, total) else []
  }

  /**
   * The write made for photo `index`, if any, extends the effects by its own
   * effects, and the progress values by the photo's event.
   */
  lemma {:induction false} EffectsStep(attempts: seq<WriteAttempt>, attempt: Option<WriteAttempt>, photos: seq<FolderFile>,
                                       hasTrack: bool, writeSucceeds: nat -> bool, index: nat)
    requires index < |photos|
    requires attempt.Some? <==> photos[index].metadata.dateTimeOriginal.Some? && hasTrack
    requires attempt.Some? ==> attempt.value.index == index && attempt.value.succeeded == writeSucceeds(index)
    ensures AttemptEffects(attempts + Made(attempt), |photos|) == AttemptEffects(attempts, |photos|) + EffectsOf(attempt, |photos|)
    ensures Publishes(AttemptEffects(attempts + Made(attempt), |photos|))
            == Publishes(AttemptEffects(attempts, |photos|))
               + (if Emits(photos, index, hasTrack, writeSucceeds) then [ProcessProgressData(index + 1, |photos|)] else [])
  {
    if attempt.None? {
      assert attempts + Made(attempt) == attempts;
    } else {
      var a := attempt.value;
      AttemptEffectsSnoc(attempts, a, |photos|);
      PublishesAppend(AttemptEffects(attempts, |photos|), WriteEffects(a, |photos|));
      PublishesWriteEffects(a, |photos|);
    }
  }

  /** Appending a correct write for a later photo keeps every write correct. */
  lemma {:induction false} AppendKeepsValid(attempts: seq<WriteAttempt>, a: WriteAttempt, photos: seq<FolderFile>,
                         track: seq<LocationData>, writeSucceeds: nat -> bool)
    requires AttemptsValid(attempts, photos, track, writeSucceeds, a.index)
    requires AttemptFor(a, photos, track, writeSucceeds)
    ensures AttemptsValid(attempts + [a], photos, track, writeSucceeds, a.index + 1)
  {
    var extended := attempts + [a];
    forall k | 0 <= k < |extended|
      ensures AttemptFor(extended[k], photos, track, writeSucceeds) && extended[k].index < a.index + 1
    {
      if k < |attempts| {
        assert extended[k] == attempts[k];
      } else {
        assert extended[k] == a;
      }
    }
  }

  /** Appending a write for a later photo keeps the list order. */
  lemma {:induction false} AppendKeepsOrdered(attempts: seq<WriteAttempt>, a: WriteAttempt)
    requires AttemptsOrdered(attempts)
    requires forall k :: 0 <= k < |attempts| ==> attempts[k].index < a.index
    ensures AttemptsOrdered(attempts + [a])
  {
    var extended := attempts + [a];
    forall k, l | 0 <= k < l < |extended|
      ensures extended[k].index < extended[l].index
    {
      assert extended[k] == attempts[k];
      if l < |attempts| {
        assert extended[l] == attempts[l];
      }
    }
  }

  /** Appending the write for photo `a.index` covers one more photo. */
  lemma {:induction false} AppendKeepsCover(attempts: seq<WriteAttempt>, a: WriteAttempt, photos: seq<FolderFile>,
                         track: seq<LocationData>)
    requires AttemptsCover(attempts, photos, track, a.index)
    ensures AttemptsCover(attempts + [a], photos, track, a.index + 1)
  {
    var extended := attempts + [a];
    forall i | 0 <= i < a.index + 1 && i < |photos| && photos[i].metadata.dateTimeOriginal.Some? && |track| > 0
      ensures exists k :: 0 <= k < |extended| && extended[k].index == i
    {
      if i == a.index {
        assert extended[|attempts|].index == i;
      } else {
        var k :| 0 <= k < |attempts| && attempts[k].index == i;
        assert extended[k].index == i;
      }
    }
  }

  /** One observable effect of the service, in the order it happens: a metadata write or a progress publication. */
  datatype Effect = Write(attempt: WriteAttempt) | Publish(data: ProcessProgressData)

  /** The effects of handling one photo that reached the writer: the write, then, if it succeeded, `{index + 1, total}`. */
  function WriteEffects(a: WriteAttempt, total: nat): seq<Effect>
  {
    [Write(a)] + (if a.succeeded then [Publish(ProcessProgressData(a.index + 1, total))] else [])
  }

  /** The effects of a series of writes, in order. */
  function AttemptEffects(attempts: seq<WriteAttempt>, total: nat): seq<Effect>
  {
    if attempts == [] then []
    else AttemptEffects(attempts[..|attempts| - 1], total) + WriteEffects(attempts[|attempts| - 1], total)
  }

  /** The progress values among `effects`, in order. */
  function Publishes(effects: seq<Effect>): seq<ProcessProgressData>
  {
    if effects == [] then []
    else
      var last := effects[|effects| - 1];
      Publishes(effects[..|effects| - 1]) + (if last.Publish? then [last.data] else [])
  }

  /** One more write adds its effects at the end. */
  lemma {:induction false} AttemptEffectsSnoc(attempts: seq<WriteAttempt>, a: WriteAttempt, total: nat)
    ensures AttemptEffects(attempts + [a], total) == AttemptEffects(attempts, total) + WriteEffects(a, total)
  {
    assert (attempts + [a])[..|attempts|] == attempts;
  }

  /** The only progress value among a write's effects is `{index + 1, total}`, and only when the write succeeded. */
  lemma {:induction false} PublishesWriteEffects(a: WriteAttempt, total: nat)
    ensures Publishes(WriteEffects(a, total))
            == if a.succeeded then [ProcessProgressData(a.index + 1, total)] else []
  {
    var w := WriteEffects(a, total);
    assert [Write(a)][..0] == [];
    assert Publishes([Write(a)]) == [];
    if a.succeeded {
      assert w == [Write(a), Publish(ProcessProgressData(a.index + 1, total))];
      assert w[..1] == [Write(a)];
    } else {
      assert w == [Write(a)];
    }
  }

  /** The progress values of two effect series in turn are those of the first followed by those of the second. */
  lemma {:induction false} PublishesAppend(a: seq<Effect>, b: seq<Effect>)
    ensures Publishes(a + b) == Publishes(a) + Publishes(b)
  {
    if b == [] {
      assert a + b == a;
    } else {
      var front := b[..|b| - 1];
      assert a + b == (a + front) + [b[|b| - 1]];
      assert (a + b)[..|a + b| - 1] == a + front;
      PublishesAppend(a, front);
    }
  }

  /**
   * Every progress value of a series of writes comes right after the write
   * it reports: that write succeeded and was for photo `processed - 1`.
   */
  lemma {:induction false} PublishFollowsItsWrite(attempts: seq<WriteAttempt>, total: nat, p: nat)
    requires p < |AttemptEffects(attempts, total)| && AttemptEffects(attempts, total)[p].Publish?
    ensures p > 0
    ensures var e := AttemptEffects(attempts, total);
      && e[p - 1].Write?
      && e[p - 1].attempt.succeeded
      && e[p].data == ProcessProgressData(e[p - 1].attempt.index + 1, total)
  {
    var front := attempts[..|attempts| - 1];
    var prior := AttemptEffects(front, total);
    if p < |prior| {
      PublishFollowsItsWrite(front, total, p);
    }
  }

  /** Every successful write is followed at once by `{index + 1, total}`; a failed one by no publication. */
  lemma {:induction false} WriteThenPublish(attempts: seq<WriteAttempt>, total: nat, p: nat)
    requires p < |AttemptEffects(attempts, total)| && AttemptEffects(attempts, total)[p].Write?
    ensures var e := AttemptEffects(attempts, total);
      e[p].attempt.succeeded <==>
        p + 1 < |e| && e[p + 1] == Publish(ProcessProgressData(e[p].attempt.index + 1, total))
  {
    var front := attempts[..|attempts| - 1];
    var prior := AttemptEffects(front, total);
    var e := AttemptEffects(attempts, total);
    if p < |prior| {
      WriteThenPublish(front, total, p);
      if p + 1 < |prior| {
        assert e[p + 1] == prior[p + 1];
      } else {
        assert e[p + 1] == Write(attempts[|attempts| - 1]);
      }
    }
  }

  /** A photo gets a progress event exactly when a write for it was made and succeeded. */
  lemma {:induction false} EventIffSuccessfulAttempt(attempts: seq<WriteAttempt>, photos: seq<FolderFile>, track: seq<LocationData>,
                                  writeSucceeds: nat -> bool, i: nat)
    requires AttemptsUpTo(attempts, photos, track, writeSucceeds, |photos|)
    requires i < |photos|
    ensures (ProcessProgressData(i + 1, |photos|) in RunEvents(photos, |track| > 0, writeSucceeds))
        <==> exists k :: 0 <= k < |attempts| && attempts[k].index == i && attempts[k].succeeded
  {
    EventForPhotoIff(photos, |track| > 0, writeSucceeds, i);
    if exists k :: 0 <= k < |attempts| && attempts[k].index == i && attempts[k].succeeded {
      var k :| 0 <= k < |attempts| && attempts[k].index == i && attempts[k].succeeded;
      assert AttemptFor(attempts[k], photos, track, writeSucceeds);
    }
  }
}
