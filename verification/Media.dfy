/**
 Content-addressed images. Bytes are written to a temporary file, renamed to a
 name derived from their hash, and only then referred to by an item. Any number
 of uploads run at once and the process may stop at any point.
 */
module Media {
  import opened Prelude
  import opened Uuids

  const MAX_IMAGE_BYTES: nat := 0x10_0000

  type Bytes = seq<int>

  /** The hash and the type detection: the key of some bytes, or none when the type is not an image. */
  type Naming = Bytes -> Option<string>

  datatype Name = Temp(n: nat) | Final(key: string)

  datatype Error = InvalidImage | ImageTooLarge | StorageFailed

  predicate Acceptable(keyOf: Naming, data: Bytes) {
    data != [] && |data| <= MAX_IMAGE_BYTES && keyOf(data).Some?
  }

  /** The checks of `Save`, in order. */
  function CheckImage(keyOf: Naming, data: Bytes): Result<string, Error> {
    if data == [] then Err(InvalidImage)
    else if |data| > MAX_IMAGE_BYTES then Err(ImageTooLarge)
    else if keyOf(data).None? then Err(InvalidImage)
    else Ok(keyOf(data).value)
  }

  /** A final name's file is a whole acceptable image with that key. */
  ghost predicate Whole(keyOf: Naming, files: map<Name, Bytes>) {
    forall key :: Final(key) in files ==> Acceptable(keyOf, files[Final(key)]) && keyOf(files[Final(key)]) == Some(key)
  }

  /** Which file-system call of `Save` fails, if any. */
  datatype Fault = NoFault | CreateFails | WriteFails | CloseFails | RenameFails

  class MediaStore {
    const keyOf: Naming
    var files: map<Name, Bytes>

    constructor (keyOf: Naming)
      ensures files == map[] && this.keyOf == keyOf
    {
      this.keyOf := keyOf;
      files := map[];
    }

    /** `Save` without a concurrent call. A failed call leaves no file behind. */
    method Save(data: Bytes, tmp: nat, fault: Fault, torn: nat) returns (result: Result<string, Error>)
      requires Whole(keyOf, files) && Temp(tmp) !in files && torn <= |data|
      modifies this
      ensures Whole(keyOf, files)
      ensures data == [] || (|data| <= 1_048_576 && keyOf(data).None?) ==> result == Err(InvalidImage)
      ensures |data| > 1_048_576 ==> result == Err(ImageTooLarge)
      ensures result.Ok? ==> keyOf(data) == Some(result.value) && Final(result.value) in files
      ensures CheckImage(keyOf, data).Err? ==> result == CheckImage(keyOf, data) && files == old(files)
      ensures CheckImage(keyOf, data).Ok? ==>
        var key := CheckImage(keyOf, data).value;
        if Final(key) in old(files) then result == Ok(key) && files == old(files)
        else if fault != NoFault then result == Err(StorageFailed) && files == old(files)
        else result == Ok(key) && files == old(files)[Final(key) := data]
    {
      if |data| == 0 { return Err(InvalidImage); }
      if |data| > MAX_IMAGE_BYTES { return Err(ImageTooLarge); }
      var found := keyOf(data);
      if found.None? { return Err(InvalidImage); }
      var key := found.value;
      if Final(key) in files { return Ok(key); }
      if fault == CreateFails { return Err(StorageFailed); }
      files := files[Temp(tmp) := []];
      files := files[Temp(tmp) := if fault == WriteFails then data[..torn] else data];
      if fault != NoFault {
        files := files - {Temp(tmp)};
        assert files == old(files);
        return Err(StorageFailed);
      }
      files := files[Final(key) := data] - {Temp(tmp)};
      assert files == old(files)[Final(key) := data];
      return Ok(key);
    }
  }

  // ---------- uploads at once ----------

  datatype Phase =
    | Checking
    | Creating(key: string)
    | Writing(key: string, tmp: nat, written: nat)
    | Saved(key: string)

  /** An upload for an item; the file is saved before the row is touched. */
  datatype Upload = Upload(item: Uuid, data: Bytes, phase: Phase)

  /** What an item's row refers to, and the bytes that were uploaded for it. */
  datatype Image = Image(key: string, uploaded: Bytes)

  datatype System = System(files: map<Name, Bytes>, images: map<Uuid, Image>, uploads: map<nat, Upload>)

  datatype Event =
    | Begin(id: nat, item: Uuid, data: Bytes)
    | Check(id: nat)
    | Create(id: nat, tmp: nat)
    | Write(id: nat, more: nat)
    | Rename(id: nat)
    | Cleanup(id: nat)
    | CommitImage(id: nat)
    | Clear(item: Uuid)
    | Crash(id: nat)

  ghost function At(s: System, id: nat, p: Phase): System
    requires id in s.uploads
  {
    s.(uploads := s.uploads[id := s.uploads[id].(phase := p)])
  }

  ghost function Ended(s: System, id: nat): System {
    s.(uploads := s.uploads - {id})
  }

  ghost function Do(s: System, keyOf: Naming, e: Event): System {
    match e
    case Begin(id, item, data) =>
      if id in s.uploads then s else s.(uploads := s.uploads[id := Upload(item, data, Checking)])
    case Check(id) =>
      if id in s.uploads && s.uploads[id].phase.Checking? then
        var key := CheckImage(keyOf, s.uploads[id].data);
        if key.Err? then Ended(s, id)
        else if Final(key.value) in s.files then At(s, id, Saved(key.value))
        else At(s, id, Creating(key.value))
      else s
    case Create(id, tmp) =>
      if id in s.uploads && s.uploads[id].phase.Creating? && Temp(tmp) !in s.files then
        At(s, id, Writing(s.uploads[id].phase.key, tmp, 0)).(files := s.files[Temp(tmp) := []])
      else s
    case Write(id, more) =>
      if id in s.uploads && s.uploads[id].phase.Writing?
        && s.uploads[id].phase.written + more <= |s.uploads[id].data| then
        var u := s.uploads[id];
        At(s, id, u.phase.(written := u.phase.written + more))
          .(files := s.files[Temp(u.phase.tmp) := u.data[..u.phase.written + more]])
      else s
    case Rename(id) =>
      if id in s.uploads && s.uploads[id].phase.Writing? && s.uploads[id].phase.written == |s.uploads[id].data|
         && Temp(s.uploads[id].phase.tmp) in s.files then
        var u := s.uploads[id];
        At(s, id, Saved(u.phase.key))
          .(files := s.files[Final(u.phase.key) := s.files[Temp(u.phase.tmp)]] - {Temp(u.phase.tmp)})
      else s
    case Cleanup(id) =>
      if id in s.uploads && s.uploads[id].phase.Writing?
      then Ended(s, id).(files := s.files - {Temp(s.uploads[id].phase.tmp)}) else s
    case CommitImage(id) =>
      if id in s.uploads && s.uploads[id].phase.Saved?
      then
        var u := s.uploads[id];
        Ended(s, id).(images := s.images[u.item := Image(u.phase.key, u.data)])
      else s
    case Clear(item) => s.(images := s.images - {item})
    case Crash(id) => Ended(s, id)
  }

  ghost function Play(s: System, keyOf: Naming, events: seq<Event>): System
    decreases |events|
  {
    if events == [] then s else Play(Do(s, keyOf, events[0]), keyOf, events[1..])
  }

  const START := System(map[], map[], map[])

  // ---------- invariants ----------

  ghost predicate UploadOk(keyOf: Naming, files: map<Name, Bytes>, u: Upload) {
    match u.phase
    case Checking => true
    case Creating(key) => Acceptable(keyOf, u.data) && keyOf(u.data) == Some(key)
    case Writing(key, tmp, written) =>
      && Acceptable(keyOf, u.data) && keyOf(u.data) == Some(key) && written <= |u.data|
      && Temp(tmp) in files && files[Temp(tmp)] == u.data[..written]
    case Saved(key) => keyOf(u.data) == Some(key) && Final(key) in files
  }

  /** No two uploads write to one temporary file. */
  ghost predicate OwnTemps(uploads: map<nat, Upload>) {
    forall a, b :: a in uploads && b in uploads && a != b && uploads[a].phase.Writing? && uploads[b].phase.Writing?
      ==> uploads[a].phase.tmp != uploads[b].phase.tmp
  }

  ghost predicate ImageOk(keyOf: Naming, files: map<Name, Bytes>, image: Image) {
    Final(image.key) in files && keyOf(image.uploaded) == Some(image.key)
  }

  ghost predicate Sound(s: System, keyOf: Naming) {
    && Whole(keyOf, s.files) && OwnTemps(s.uploads)
    && (forall id :: id in s.uploads ==> UploadOk(keyOf, s.files, s.uploads[id]))
    && (forall item :: item in s.images ==> ImageOk(keyOf, s.files, s.images[item]))
  }

  /** Files under final names are only ever added. */
  lemma FinalsStay(s: System, keyOf: Naming, e: Event, key: string)
    requires Final(key) in s.files
    ensures Final(key) in Do(s, keyOf, e).files
  {
  }

  lemma DoKeepsWhole(s: System, keyOf: Naming, e: Event)
    requires Sound(s, keyOf)
    ensures Whole(keyOf, Do(s, keyOf, e).files)
  {
    if e.Rename? && e.id in s.uploads {
      var u := s.uploads[e.id];
      assert UploadOk(keyOf, s.files, u);
      assert u.data[..|u.data|] == u.data;
    }
  }

  lemma DoKeepsImages(s: System, keyOf: Naming, e: Event)
    requires Sound(s, keyOf)
    ensures var s' := Do(s, keyOf, e); forall item :: item in s'.images ==> ImageOk(keyOf, s'.files, s'.images[item])
  {
    var s' := Do(s, keyOf, e);
    forall item | item in s'.images ensures ImageOk(keyOf, s'.files, s'.images[item]) {
      if item in s.images && s'.images[item] == s.images[item] {
        assert ImageOk(keyOf, s.files, s.images[item]);
        FinalsStay(s, keyOf, e, s.images[item].key);
      } else {
        assert UploadOk(keyOf, s.files, s.uploads[e.id]);
      }
    }
  }

  /** An upload's own event. */
  lemma DoKeepsOwn(s: System, keyOf: Naming, e: Event, id: nat)
    requires Sound(s, keyOf) && !e.Clear? && e.id == id && id in Do(s, keyOf, e).uploads
    ensures UploadOk(keyOf, Do(s, keyOf, e).files, Do(s, keyOf, e).uploads[id])
  {
    assert id in s.uploads ==> UploadOk(keyOf, s.files, s.uploads[id]);
  }

  /** Another upload's event leaves its temporary file alone. */
  lemma DoKeepsOther(s: System, keyOf: Naming, e: Event, other: nat)
    requires Sound(s, keyOf) && (e.Clear? || e.id != other) && other in s.uploads
    ensures UploadOk(keyOf, Do(s, keyOf, e).files, s.uploads[other])
  {
    var u := s.uploads[other];
    assert UploadOk(keyOf, s.files, u);
    if u.phase.Saved? { FinalsStay(s, keyOf, e, u.phase.key); }
  }

  lemma DoKeepsTemps(s: System, keyOf: Naming, e: Event)
    requires Sound(s, keyOf)
    ensures OwnTemps(Do(s, keyOf, e).uploads)
  {
    if e.Create? {
      forall other | other in s.uploads && s.uploads[other].phase.Writing?
        ensures Temp(s.uploads[other].phase.tmp) in s.files {
        assert UploadOk(keyOf, s.files, s.uploads[other]);
      }
    }
  }

  lemma DoKeepsSound(s: System, keyOf: Naming, e: Event)
    requires Sound(s, keyOf)
    ensures Sound(Do(s, keyOf, e), keyOf)
  {
    var s' := Do(s, keyOf, e);
    DoKeepsWhole(s, keyOf, e);
    DoKeepsImages(s, keyOf, e);
    DoKeepsTemps(s, keyOf, e);
    forall id | id in s'.uploads ensures UploadOk(keyOf, s'.files, s'.uploads[id]) {
      if !e.Clear? && e.id == id {
        DoKeepsOwn(s, keyOf, e, id);
      } else {
        UntouchedUpload(s, keyOf, e, id);
        DoKeepsOther(s, keyOf, e, id);
      }
    }
  }

  lemma UntouchedUpload(s: System, keyOf: Naming, e: Event, other: nat)
    requires (e.Clear? || e.id != other) && other in Do(s, keyOf, e).uploads
    ensures other in s.uploads && Do(s, keyOf, e).uploads[other] == s.uploads[other]
  {
  }

  lemma {:induction false} PlayKeepsSound(s: System, keyOf: Naming, events: seq<Event>)
    requires Sound(s, keyOf)
    ensures Sound(Play(s, keyOf, events), keyOf)
    decreases |events|
  {
    if events != [] {
      DoKeepsSound(s, keyOf, events[0]);
      PlayKeepsSound(Do(s, keyOf, events[0]), keyOf, events[1..]);
    }
  }

  /** The key names its bytes: no two acceptable images share one. */
  ghost predicate CollisionFree(keyOf: Naming) {
    forall a: Bytes, b: Bytes :: keyOf(a).Some? && keyOf(a) == keyOf(b) ==> a == b
  }

  /**
   Whatever uploads interleave and wherever the process stops, every file under
   a final name is a whole image with that name's hash, and every committed
   reference is to such a file, which holds the very bytes uploaded for the item.
   */
  lemma ReferencesHoldWholeImages(keyOf: Naming, events: seq<Event>)
    requires CollisionFree(keyOf)
    ensures var s := Play(START, keyOf, events);
      && Whole(keyOf, s.files)
      && forall item :: item in s.images ==>
           Final(s.images[item].key) in s.files && s.files[Final(s.images[item].key)] == s.images[item].uploaded
  {
    PlayKeepsSound(START, keyOf, events);
    var s := Play(START, keyOf, events);
    forall item | item in s.images
      ensures Final(s.images[item].key) in s.files && s.files[Final(s.images[item].key)] == s.images[item].uploaded
    {
      assert ImageOk(keyOf, s.files, s.images[item]);
    }
  }

  /**
   An upload that nothing interrupts goes through: a good image is stored under its key and
   shown for the item, one that is stored already is only shown, and a bad one changes nothing.
   */
  lemma UploadAlone(s: System, keyOf: Naming, id: nat, item: Uuid, data: Bytes, tmp: nat)
    requires id !in s.uploads && Temp(tmp) !in s.files
    ensures data == [] || |data| > 1_048_576 || keyOf(data).None? ==>
      Do(Do(s, keyOf, Begin(id, item, data)), keyOf, Check(id)) == s
    ensures data != [] && |data| <= 1_048_576 && keyOf(data).Some? ==>
      var key := keyOf(data).value;
      var checked := Do(Do(s, keyOf, Begin(id, item, data)), keyOf, Check(id));
      var shown := s.images[item := Image(key, data)];
      && (Final(key) in s.files ==> Do(checked, keyOf, CommitImage(id)) == s.(images := shown))
      && (Final(key) !in s.files ==>
            var written := Do(Do(checked, keyOf, Create(id, tmp)), keyOf, Write(id, |data|));
            Do(Do(written, keyOf, Rename(id)), keyOf, CommitImage(id))
            == s.(files := s.files[Final(key) := data], images := shown))
  {
    assert s.uploads[id := Upload(item, data, Checking)] - {id} == s.uploads;
    if data != [] && |data| <= 1_048_576 && keyOf(data).Some? {
      Stored(s, keyOf, id, item, data, tmp, keyOf(data).value);
    }
  }

  lemma Stored(s: System, keyOf: Naming, id: nat, item: Uuid, data: Bytes, tmp: nat, key: string)
    requires id !in s.uploads && Temp(tmp) !in s.files
    requires data != [] && |data| <= 1_048_576 && keyOf(data) == Some(key)
    ensures var checked := Do(Do(s, keyOf, Begin(id, item, data)), keyOf, Check(id));
      var shown := s.images[item := Image(key, data)];
      && (Final(key) in s.files ==> Do(checked, keyOf, CommitImage(id)) == s.(images := shown))
      && (Final(key) !in s.files ==>
            var written := Do(Do(checked, keyOf, Create(id, tmp)), keyOf, Write(id, |data|));
            Do(Do(written, keyOf, Rename(id)), keyOf, CommitImage(id))
            == s.(files := s.files[Final(key) := data], images := shown))
  {
    var checked := Do(Do(s, keyOf, Begin(id, item, data)), keyOf, Check(id));
    var phase := if Final(key) in s.files then Saved(key) else Creating(key);
    assert checked == s.(uploads := s.uploads[id := Upload(item, data, phase)]);
    if Final(key) in s.files {
      ShowsSaved(s, keyOf, id, Upload(item, data, phase));
    } else {
      WritesFile(s, keyOf, id, item, data, tmp, key);
      ShowsSaved(s.(files := s.files[Final(key) := data]), keyOf, id, Upload(item, data, Saved(key)));
    }
  }

  lemma ShowsSaved(s: System, keyOf: Naming, id: nat, u: Upload)
    requires id !in s.uploads && u.phase.Saved?
    ensures Do(s.(uploads := s.uploads[id := u]), keyOf, CommitImage(id))
      == s.(images := s.images[u.item := Image(u.phase.key, u.data)])
  {
    assert s.uploads[id := u] - {id} == s.uploads;
  }

  /** The state with this upload and these files. */
  ghost function With(s: System, id: nat, u: Upload, files: map<Name, Bytes>): System {
    s.(uploads := s.uploads[id := u], files := files)
  }

  lemma WritesFile(s: System, keyOf: Naming, id: nat, item: Uuid, data: Bytes, tmp: nat, key: string)
    requires id !in s.uploads && Temp(tmp) !in s.files
    ensures var checked := s.(uploads := s.uploads[id := Upload(item, data, Creating(key))]);
      var written := Do(Do(checked, keyOf, Create(id, tmp)), keyOf, Write(id, |data|));
      Do(written, keyOf, Rename(id))
      == s.(uploads := s.uploads[id := Upload(item, data, Saved(key))], files := s.files[Final(key) := data])
  {
    var u := Upload(item, data, Creating(key));
    CreatesTemp(s, keyOf, id, u, tmp);
    WritesAll(s, keyOf, id, u.(phase := Writing(key, tmp, 0)));
    RenamesTemp(s, keyOf, id, u.(phase := Writing(key, tmp, |data|)));
  }

  lemma CreatesTemp(s: System, keyOf: Naming, id: nat, u: Upload, tmp: nat)
    requires u.phase.Creating? && Temp(tmp) !in s.files
    ensures Do(With(s, id, u, s.files), keyOf, Create(id, tmp))
      == With(s, id, u.(phase := Writing(u.phase.key, tmp, 0)), s.files[Temp(tmp) := []])
  {
  }

  lemma WritesAll(s: System, keyOf: Naming, id: nat, u: Upload)
    requires u.phase.Writing? && u.phase.written == 0
    ensures var tmp := Temp(u.phase.tmp);
      Do(With(s, id, u, s.files[tmp := []]), keyOf, Write(id, |u.data|))
      == With(s, id, u.(phase := u.phase.(written := |u.data|)), s.files[tmp := u.data])
  {
    assert u.data[..|u.data|] == u.data;
    assert s.files[Temp(u.phase.tmp) := []][Temp(u.phase.tmp) := u.data] == s.files[Temp(u.phase.tmp) := u.data];
  }

  lemma RenamesTemp(s: System, keyOf: Naming, id: nat, u: Upload)
    requires u.phase.Writing? && u.phase.written == |u.data| && Temp(u.phase.tmp) !in s.files
    ensures Do(With(s, id, u, s.files[Temp(u.phase.tmp) := u.data]), keyOf, Rename(id))
      == With(s, id, u.(phase := Saved(u.phase.key)), s.files[Final(u.phase.key) := u.data])
  {
    var tmp, key := Temp(u.phase.tmp), Final(u.phase.key);
    assert s.files[tmp := u.data][key := u.data] - {tmp} == s.files[key := u.data];
  }
}
