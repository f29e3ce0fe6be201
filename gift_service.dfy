/** services/giftService.ts: the gift item record and the naming of gift images
    in storage. The storage calls themselves are outcomes given as inputs. */
module GiftService {
  import opened Wrappers
  import opened Text

  datatype GiftItem = GiftItem(id: string, name: string, emoji: string, imageUrl: Option<string>,
                               isVisible: bool, sortOrder: int)

  /** The extension `uploadGiftImage` takes: text after the last '.', or the whole
      name when it has no '.'. */
  function UploadExtension(fileName: string): (ext: string)
    ensures '.' !in ext
    ensures '.' !in fileName ==> ext == fileName
    ensures '.' in fileName ==>
      && |ext| < |fileName| && fileName[|fileName| - |ext| - 1] == '.'
      && fileName[|fileName| - |ext|..] == ext
  {
    LastSegmentWhole(fileName, '.');
    LastSegment(fileName, '.')
  }

  /** `${id}-${stamp}.${ext}`: the id and a dash, then the stamp, then a '.' and
      the extension, so each part can be read back at its position. It holds a
      '/' only if one of its three parts does. */
  function Stamped(id: string, stamp: string, ext: string): (name: string)
    ensures |name| == |id| + |stamp| + |ext| + 2
    ensures name[..|id| + 1] == id + "-"
    ensures name[|id| + 1..|name| - |ext| - 1] == stamp
    ensures name[|name| - |ext| - 1] == '.' && name[|name| - |ext|..] == ext
    ensures '/' !in id && '/' !in stamp && '/' !in ext ==> '/' !in name
  {
    var head := id + "-";
    var name := head + stamp + ['.'] + ext;
    NotInConcat('/', head, stamp, ['.'], ext);
    assert name == head + (stamp + (['.'] + ext));
    assert name[..|head|] == head;
    assert name[|head|..] == stamp + (['.'] + ext);
    assert name[|head|..][..|stamp|] == stamp;
    assert name[|head|..|head| + |stamp|] == stamp;
    assert name[|head| + |stamp|..] == ['.'] + ext;
    name
  }

  /** The text of a storage name between the gift id's dash and the '.' before
      the file's extension. */
  function StampOf(giftId: string, fileName: string, name: string): string
    requires |name| > |giftId| + |UploadExtension(fileName)| + 1
  {
    name[|giftId| + 1..|name| - |UploadExtension(fileName)| - 1]
  }

  /** The storage name `${giftId}-${Date.now()}.${ext}`; `now` is the clock read.
      It starts with the gift id and a dash, ends with '.' and the file's
      extension, and between them holds the decimal digits of `now`. It holds a
      '/' only if the id or the extension does. */
  function UploadFileName(giftId: string, now: nat, fileName: string): (name: string)
    ensures |name| > |giftId| + |UploadExtension(fileName)| + 1
    ensures name[..|giftId| + 1] == giftId + "-"
    ensures AllDigits(StampOf(giftId, fileName, name)) && ParseDecimal(StampOf(giftId, fileName, name)) == now
    ensures name[|name| - |UploadExtension(fileName)| - 1] == '.'
    ensures name[|name| - |UploadExtension(fileName)|..] == UploadExtension(fileName)
    ensures '/' !in giftId && '/' !in UploadExtension(fileName) ==> '/' !in name
  {
    Stamped(giftId, NatToString(now), UploadExtension(fileName))
  }

  /** The stamp in a storage name is exactly `String(Date.now())`: the shortest
      decimal form of the clock read, with no leading zeros. */
  lemma UploadStampIsNow(giftId: string, now: nat, fileName: string)
    ensures StampOf(giftId, fileName, UploadFileName(giftId, now, fileName)) == NatToString(now)
  {
    var ext := UploadExtension(fileName);
    var stamp := NatToString(now);
    var name := Stamped(giftId, stamp, ext);
    assert UploadFileName(giftId, now, fileName) == name;
    assert |name| == |giftId| + |stamp| + |ext| + 2;
    assert name[|giftId| + 1..|name| - |ext| - 1] == stamp;
  }

  /** Two uploads of the same file for the same gift at different instants get
      different storage names, so `upsert` never overwrites an earlier image. */
  lemma UploadNamesDistinct(giftId: string, now1: nat, now2: nat, fileName: string)
    ensures UploadFileName(giftId, now1, fileName) == UploadFileName(giftId, now2, fileName) ==> now1 == now2
  {
    var name1 := UploadFileName(giftId, now1, fileName);
    var name2 := UploadFileName(giftId, now2, fileName);
    if name1 == name2 {
      assert StampOf(giftId, fileName, name1) == StampOf(giftId, fileName, name2);
    }
  }

  /** The stored name keeps the original extension: reading the extension back
      from it gives the extension of the uploaded file. */
  lemma UploadKeepsExtension(giftId: string, now: nat, fileName: string)
    ensures UploadExtension(UploadFileName(giftId, now, fileName)) == UploadExtension(fileName)
  {
    var ext := UploadExtension(fileName);
    assert UploadFileName(giftId, now, fileName) == (giftId + "-" + NatToString(now)) + ['.'] + ext;
    LastSegmentAfter(giftId + "-" + NatToString(now), '.', ext);
  }

  /** `getPublicUrl(name).data.publicUrl`: the bucket's public base URL, a '/',
      and the object name. */
  function PublicUrl(bucketUrl: string, name: string): (url: string)
    ensures |url| > |name| && url[|url| - |name|..] == name && url[|url| - |name| - 1] == '/'
  {
    bucketUrl + "/" + name
  }

  /** `uploadGiftImage`: null when the upload fails; otherwise the public URL of
      the stored object, which ends in '/' and the generated storage name. */
  function UploadGiftImage(bucketUrl: string, giftId: string, now: nat, fileName: string,
                           uploadError: Option<string>): (url: Option<string>)
    ensures url.None? <==> uploadError.Some?
    ensures url.Some? ==> url.value == PublicUrl(bucketUrl, UploadFileName(giftId, now, fileName))
  {
    if uploadError.Some? then None else Some(PublicUrl(bucketUrl, UploadFileName(giftId, now, fileName)))
  }

  /** What `deleteGiftImage` does with a URL. */
  datatype ImageDeletion = ImageDeletion(removed: Option<string>, ok: bool)

  /** `deleteGiftImage`: the file name is the text after the last '/' (the whole URL
      when it has none); an empty name returns false with no storage call;
      otherwise the result is that of the storage removal. */
  function DeleteGiftImage(imageUrl: string, storageError: Option<string>): (d: ImageDeletion)
    ensures d.removed.None? <==> imageUrl == [] || imageUrl[|imageUrl| - 1] == '/'
    ensures d.removed.None? ==> !d.ok
    ensures d.removed.Some? ==>
      && d.removed.value == LastSegment(imageUrl, '/') && '/' !in d.removed.value
      && ('/' !in imageUrl ==> d.removed.value == imageUrl)
      && (d.ok <==> storageError.None?)
  {
    LastSegmentEmpty(imageUrl, '/');
    LastSegmentWhole(imageUrl, '/');
    var name := LastSegment(imageUrl, '/');
    if name == "" then ImageDeletion(None, false)
    else ImageDeletion(Some(name), storageError.None?)
  }

  /** Upload then delete: deleting by the URL a successful upload returned removes
      exactly the object that upload stored, and reports the storage call's result. */
  lemma DeleteFindsUploadedImage(bucketUrl: string, giftId: string, now: nat, fileName: string,
                                 uploadError: Option<string>, storageError: Option<string>)
    requires '/' !in giftId && '/' !in UploadExtension(fileName)
    ensures var url := UploadGiftImage(bucketUrl, giftId, now, fileName, uploadError);
      url.Some? ==>
        && DeleteGiftImage(url.value, storageError).removed == Some(UploadFileName(giftId, now, fileName))
        && (DeleteGiftImage(url.value, storageError).ok <==> storageError.None?)
  {
    var stored := UploadFileName(giftId, now, fileName);
    assert PublicUrl(bucketUrl, stored) == bucketUrl + ['/'] + stored;
    LastSegmentAfter(bucketUrl, '/', stored);
  }
}
