/** The photo record: the fields that are logged, and where a record landed. */
module Models {
  import opened Basics
  import opened Json

  /** The fields of a record that are written to the log.  Times, the camera name and
      the coordinates are opaque field values. */
  datatype Photo = Photo(
    photoId: string,
    contentHash: string,
    takenAt: Option<Bytes>,
    camera: Option<Bytes>,
    gps: Option<(NumToken, NumToken)>,
    thumbnailPaths: seq<Bytes>,
    tombstone: bool,
    uploadedAt: Bytes)

  /** An index entry: a record and the bookkeeping of its place in the log. */
  datatype PhotoMeta = PhotoMeta(photo: Photo, segmentId: string, offset: nat, length: nat)

  function OptionalText(v: Option<Bytes>): Value {
    match v
    case None => One(Null)
    case Some(t) => One(Str(t))
  }

  function OptionalGps(v: Option<(NumToken, NumToken)>): Value {
    match v
    case None => One(Null)
    case Some((lat, lon)) => Many([Num(lat), Num(lon)])
  }

  function Texts(v: seq<Bytes>): Value {
    Many(seq(|v|, i requires 0 <= i < |v| => Str(v[i])))
  }

  /** `model_dump(mode="json")` without the three bookkeeping fields. */
  function ToRecord(p: Photo): Object {
    map[
      "photo_id" := One(Str(p.photoId)),
      "content_hash" := One(Str(p.contentHash)),
      "taken_at" := OptionalText(p.takenAt),
      "camera" := OptionalText(p.camera),
      "gps" := OptionalGps(p.gps),
      "thumbnail_paths" := Texts(p.thumbnailPaths),
      "tombstone" := One(Bool(p.tombstone)),
      "uploaded_at" := One(Str(p.uploadedAt))
    ]
  }

  predicate IsText(m: Object, k: Bytes) {
    k in m && m[k].One? && m[k].scalar.Str?
  }

  /** Absent and null both stand for `None`. */
  predicate IsOptionalText(m: Object, k: Bytes) {
    k in m ==> m[k].One? && (m[k].scalar.Str? || m[k].scalar.Null?)
  }

  function GetOptionalText(m: Object, k: Bytes): Option<Bytes>
    requires IsOptionalText(m, k)
  {
    if k in m && m[k].scalar.Str? then Some(m[k].scalar.text) else None
  }

  predicate IsGps(m: Object) {
    "gps" in m ==>
      match m["gps"]
      case One(s) => s.Null?
      case Many(items) => |items| == 2 && items[0].Num? && items[1].Num?
  }

  predicate IsPaths(m: Object) {
    "thumbnail_paths" in m ==>
      m["thumbnail_paths"].Many? && forall v :: v in m["thumbnail_paths"].items ==> v.Str?
  }

  function GetGps(m: Object): Option<(NumToken, NumToken)>
    requires IsGps(m)
  {
    if "gps" in m && m["gps"].Many? then Some((m["gps"].items[0].token, m["gps"].items[1].token)) else None
  }

  function GetPaths(m: Object): seq<Bytes>
    requires IsPaths(m)
  {
    var paths := if "thumbnail_paths" in m then m["thumbnail_paths"].items else [];
    seq(|paths|, i requires 0 <= i < |paths| => paths[i].text)
  }

  predicate IsFlag(m: Object) {
    "tombstone" in m ==> m["tombstone"].One? && m["tombstone"].scalar.Bool?
  }

  function GetFlag(m: Object): bool
    requires IsFlag(m)
  {
    "tombstone" in m && m["tombstone"].scalar.b
  }

  /** `PhotoMeta.model_validate`: the two identifiers and the upload time must be
      there, the other fields have defaults, unknown keys are ignored. */
  function FromRecord(m: Object): Option<Photo> {
    if && IsText(m, "photo_id") && IsText(m, "content_hash") && IsText(m, "uploaded_at")
       && IsOptionalText(m, "taken_at") && IsOptionalText(m, "camera")
       && IsGps(m) && IsPaths(m) && IsFlag(m)
    then
      Some(Photo(
        m["photo_id"].scalar.text,
        m["content_hash"].scalar.text,
        GetOptionalText(m, "taken_at"),
        GetOptionalText(m, "camera"),
        GetGps(m),
        GetPaths(m),
        GetFlag(m),
        m["uploaded_at"].scalar.text))
    else
      None
  }

  // -------------------------------------------------------------- round trips

  /** What stands for a field that is not there; the other fields must be there. */
  const DEFAULTS: Object := map[
    "taken_at" := One(Null), "camera" := One(Null), "gps" := One(Null), "thumbnail_paths" := Many([]),
    "tombstone" := One(Bool(false))]

  predicate HasField(m: Object, k: Bytes, v: Value) {
    if k in m then m[k] == v else k in DEFAULTS && v == DEFAULTS[k]
  }

  /** The record is a dump of the photo, but for defaults left out and keys that are no
      field. */
  predicate Describes(m: Object, p: Photo) {
    forall k | k in ToRecord(p) :: HasField(m, k, ToRecord(p)[k])
  }

  lemma DescribesFields(m: Object, p: Photo)
    ensures Describes(m, p) <==>
            && HasField(m, "photo_id", One(Str(p.photoId))) && HasField(m, "content_hash", One(Str(p.contentHash)))
            && HasField(m, "taken_at", OptionalText(p.takenAt)) && HasField(m, "camera", OptionalText(p.camera))
            && HasField(m, "gps", OptionalGps(p.gps)) && HasField(m, "thumbnail_paths", Texts(p.thumbnailPaths))
            && HasField(m, "tombstone", One(Bool(p.tombstone))) && HasField(m, "uploaded_at", One(Str(p.uploadedAt)))
  {
    hide HasField, OptionalText, OptionalGps, Texts;
    var r := ToRecord(p);
    assert r["photo_id"] == One(Str(p.photoId)) && r["content_hash"] == One(Str(p.contentHash));
    assert r["taken_at"] == OptionalText(p.takenAt) && r["camera"] == OptionalText(p.camera);
    assert r["gps"] == OptionalGps(p.gps) && r["thumbnail_paths"] == Texts(p.thumbnailPaths);
    assert r["tombstone"] == One(Bool(p.tombstone)) && r["uploaded_at"] == One(Str(p.uploadedAt));
  }

  lemma TextIff(m: Object, k: Bytes, v: Bytes)
    requires k !in DEFAULTS
    ensures IsText(m, k) && m[k].scalar.text == v <==> HasField(m, k, One(Str(v)))
  {
  }

  lemma OptionalTextIff(m: Object, k: Bytes, v: Option<Bytes>)
    requires k in DEFAULTS && DEFAULTS[k] == One(Null)
    ensures IsOptionalText(m, k) && GetOptionalText(m, k) == v <==> HasField(m, k, OptionalText(v))
  {
  }

  lemma GpsIff(m: Object, v: Option<(NumToken, NumToken)>)
    ensures IsGps(m) && GetGps(m) == v <==> HasField(m, "gps", OptionalGps(v))
  {
    if IsGps(m) && "gps" in m && m["gps"].Many? {
      assert m["gps"].items == [Num(GetGps(m).value.0), Num(GetGps(m).value.1)];
    }
  }

  lemma PathsIff(m: Object, v: seq<Bytes>)
    ensures IsPaths(m) && GetPaths(m) == v <==> HasField(m, "thumbnail_paths", Texts(v))
  {
    var texts := Texts(v).items;
    assert |texts| == |v| && forall i | 0 <= i < |v| :: texts[i] == Str(v[i]);
    if IsPaths(m) && GetPaths(m) == v && "thumbnail_paths" in m {
      var items := m["thumbnail_paths"].items;
      forall i | 0 <= i < |items| ensures items[i] == Str(v[i]) {
        assert items[i] in items && GetPaths(m)[i] == items[i].text;
      }
      assert items == texts;
    }
    if HasField(m, "thumbnail_paths", Texts(v)) {
      if "thumbnail_paths" in m { assert m["thumbnail_paths"].items == texts; }
      assert GetPaths(m) == v;
    }
  }

  lemma FlagIff(m: Object, v: bool)
    ensures IsFlag(m) && GetFlag(m) == v <==> HasField(m, "tombstone", One(Bool(v)))
  {
  }

  /** Validation accepts a record exactly when it describes a photo, and yields that. */
  lemma ValidationIff(m: Object, p: Photo)
    ensures FromRecord(m) == Some(p) <==> Describes(m, p)
  {
    DescribesFields(m, p);
    TextIff(m, "photo_id", p.photoId);
    TextIff(m, "content_hash", p.contentHash);
    TextIff(m, "uploaded_at", p.uploadedAt);
    OptionalTextIff(m, "taken_at", p.takenAt);
    OptionalTextIff(m, "camera", p.camera);
    GpsIff(m, p.gps);
    PathsIff(m, p.thumbnailPaths);
    FlagIff(m, p.tombstone);
    hide Describes, HasField, IsText, IsOptionalText, IsGps, IsPaths, IsFlag;
    hide GetOptionalText, GetGps, GetPaths, GetFlag;
  }

  /** Validating a dumped record gives the record back. */
  lemma RecordRoundTrip(p: Photo)
    ensures "crc32" !in ToRecord(p)
    ensures FromRecord(ToRecord(p)) == Some(p)
  {
    ValidationIff(ToRecord(p), p);
  }

  function Place(p: Photo, segment: string, offset: nat, length: nat): PhotoMeta {
    PhotoMeta(p, segment, offset, length)
  }
}
