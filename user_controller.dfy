/** The profile controller: `updateUser` sets about, mobile and optionally an
    image (from a base64 data URL or from an uploaded file) on the caller's
    document, and `getAllUsers` lists everyone else without their secrets. */
module UserController {
  import opened Common
  import opened UserModel

  // ---------------------------------------------------------------------
  // The data URL: /^data:image\/([a-zA-Z]+);base64,(.+)$/

  const DataUrlPrefix := "data:image/"
  const Base64Marker := ";base64,"

  /** The exception message `saveBase64Image` throws on a string it refuses. */
  const InvalidImageString := "Invalid base64 image string"

  predicate IsAsciiLetter(c: char) {
    'a' <= c <= 'z' || 'A' <= c <= 'Z'
  }

  predicate AllLetters(s: string) {
    forall k | 0 <= k < |s| :: IsAsciiLetter(s[k])
  }

  /** The characters `.` does not match in a regular expression without the `s` flag. */
  predicate IsLineTerminator(c: char) {
    c == '\n' || c == '\r' || c == '\U{2028}' || c == '\U{2029}'
  }

  predicate NoLineTerminator(s: string) {
    forall k | 0 <= k < |s| :: !IsLineTerminator(s[k])
  }

  /** The length of the run of ASCII letters `s` starts with. */
  function LetterRun(s: string): (n: nat)
    ensures n <= |s|
    ensures forall k | 0 <= k < n :: IsAsciiLetter(s[k])
    ensures n < |s| ==> !IsAsciiLetter(s[n])
  {
    if s == [] || !IsAsciiLetter(s[0]) then 0 else 1 + LetterRun(s[1..])
  }

  /** The two capture groups: the extension and the base64 payload. */
  datatype ImageData = ImageData(ext: string, payload: string)

  /** `s` is a data URL with extension `img.ext` and payload `img.payload`. */
  ghost predicate IsImageDataUrl(s: string, img: ImageData) {
    && s == DataUrlPrefix + img.ext + Base64Marker + img.payload
    && |img.ext| > 0 && AllLetters(img.ext)
    && |img.payload| > 0 && NoLineTerminator(img.payload)
  }

  /** The regular-expression match of `saveBase64Image`; None where it throws. */
  function ParseImage(s: string): (r: Option<ImageData>)
    ensures r.Some? ==> |r.value.ext| > 0 && AllLetters(r.value.ext)
    ensures r.Some? ==> |r.value.payload| > 0 && NoLineTerminator(r.value.payload)
    ensures r.Some? ==> |s| == |DataUrlPrefix| + |r.value.ext| + |Base64Marker| + |r.value.payload|
  {
    if |s| < |DataUrlPrefix| || s[..|DataUrlPrefix|] != DataUrlPrefix then None
    else
      var rest := s[|DataUrlPrefix|..];
      var n := LetterRun(rest);
      var after := rest[n..];
      if n == 0 || |after| < |Base64Marker| || after[..|Base64Marker|] != Base64Marker then None
      else
        var payload := after[|Base64Marker|..];
        if payload == [] || !NoLineTerminator(payload) then None
        else Some(ImageData(rest[..n], payload))
  }

  lemma ParseImageSound(s: string)
    requires ParseImage(s).Some?
    ensures IsImageDataUrl(s, ParseImage(s).value)
  {
    var rest := s[|DataUrlPrefix|..];
    var n := LetterRun(rest);
    var after := rest[n..];
    assert s == DataUrlPrefix + rest;
    assert rest == rest[..n] + after;
    assert after == Base64Marker + after[|Base64Marker|..];
  }

  lemma ParseImageComplete(s: string, img: ImageData)
    requires IsImageDataUrl(s, img)
    ensures ParseImage(s) == Some(img)
  {
    var rest := s[|DataUrlPrefix|..];
    assert s[..|DataUrlPrefix|] == DataUrlPrefix;
    assert rest == img.ext + Base64Marker + img.payload;
    assert rest[|img.ext|] == ';';
    var n := LetterRun(rest);
    assert n == |img.ext|;
    var after := rest[n..];
    assert after == Base64Marker + img.payload;
    assert after[..|Base64Marker|] == Base64Marker;
    assert after[|Base64Marker|..] == img.payload;
    assert rest[..n] == img.ext;
  }

  /** The parser accepts exactly the data URLs, and splits each one into
      the extension and the payload it was built from. */
  lemma ParseImageExact(s: string, img: ImageData)
    ensures ParseImage(s) == Some(img) <==> IsImageDataUrl(s, img)
  {
    if ParseImage(s) == Some(img) {
      ParseImageSound(s);
    }
    if IsImageDataUrl(s, img) {
      ParseImageComplete(s, img);
    }
  }

  // ---------------------------------------------------------------------
  // The stored file's name and its URL

  /** `user_<id>_<time>.<ext>`, the id and the time in decimal. */
  function ImageFilename(userId: Id, nowMs: nat, ext: string): (f: string)
    ensures "user_" <= f
  {
    "user_" + DecimalString(userId) + "_" + DecimalString(nowMs) + "." + ext
  }

  /** In a digit string followed by a non-digit, the digits come first and
      the non-digit right after them. */
  lemma DigitsThenNonDigit(t: string, a: string, x: char, b: string)
    requires t == a + [x] + b && AllDigits(a) && !IsDigit(x)
    ensures forall k | 0 <= k < |a| :: IsDigit(t[k])
    ensures !IsDigit(t[|a|])
  {
    assert forall k | 0 <= k < |a| :: t[k] == a[k];
  }

  /** Two digit strings followed by a non-digit split the same way. */
  lemma SplitAfterDigits(a: string, x: char, b: string, a': string, y: char, b': string)
    requires AllDigits(a) && AllDigits(a') && !IsDigit(x) && !IsDigit(y)
    requires a + [x] + b == a' + [y] + b'
    ensures a == a' && x == y && b == b'
  {
    var t := a + [x] + b;
    DigitsThenNonDigit(t, a, x, b);
    DigitsThenNonDigit(t, a', y, b');
    assert |a| == |a'|;
    assert t[|a|] == x && t[|a'|] == y;
    assert a == t[..|a|] == a';
    assert b == t[|a| + 1..] == b';
  }

  /** The file name determines the user id, the time and the extension:
      different (id, time, extension) triples never share a name. */
  lemma FilenameInjective(id1: Id, t1: nat, ext1: string, id2: Id, t2: nat, ext2: string)
    requires ImageFilename(id1, t1, ext1) == ImageFilename(id2, t2, ext2)
    ensures id1 == id2 && t1 == t2 && ext1 == ext2
  {
    var f1 := ImageFilename(id1, t1, ext1);
    var f2 := ImageFilename(id2, t2, ext2);
    var r1 := DecimalString(t1) + ['.'] + ext1;
    var r2 := DecimalString(t2) + ['.'] + ext2;
    assert f1 == "user_" + (DecimalString(id1) + ['_'] + r1);
    assert f2 == "user_" + (DecimalString(id2) + ['_'] + r2);
    assert f1[5..] == DecimalString(id1) + ['_'] + r1;
    assert f2[5..] == DecimalString(id2) + ['_'] + r2;
    SplitAfterDigits(DecimalString(id1), '_', r1, DecimalString(id2), '_', r2);
    SplitAfterDigits(DecimalString(t1), '.', ext1, DecimalString(t2), '.', ext2);
    DecimalStringInjective(id1, id2);
    DecimalStringInjective(t1, t2);
  }

  /** `${protocol}://${host}/uploads/${filename}`. */
  function ImageUrl(protocol: string, host: string, filename: string): string {
    protocol + "://" + host + "/uploads/" + filename
  }

  // ---------------------------------------------------------------------
  // updateUser

  /** The `$set` document: about and mobile always, image when one was given. */
  datatype UpdateData = UpdateData(about: string, mobile: string, image: Option<string>)

  /** What `updateUser` sets for its inputs, or the parser's exception.
      `base64Image` is "" when the body has none; `upload` is the name multer
      gave an uploaded file, if any. */
  function UpdateDataFor(userId: Id, about: string, mobile: string, base64Image: string,
                         upload: Option<string>, protocol: string, host: string, nowMs: nat): (r: Result<UpdateData>)
    ensures r.Err? <==> base64Image != "" && forall img :: !IsImageDataUrl(base64Image, img)
    ensures r.Err? ==> r.error == InvalidImageString
    ensures r.Ok? ==> r.value.about == about && r.value.mobile == mobile
    ensures r.Ok? && base64Image != "" ==>
      exists img :: IsImageDataUrl(base64Image, img) &&
        r.value.image == Some(ImageUrl(protocol, host, ImageFilename(userId, nowMs, img.ext)))
    ensures base64Image == "" ==>
      r.Ok? && r.value.image == (if upload.Some? then Some(ImageUrl(protocol, host, upload.value)) else None)
  {
    if base64Image != "" then
      match ParseImage(base64Image)
      case None =>
        assert forall img :: !IsImageDataUrl(base64Image, img) by {
          forall img ensures !IsImageDataUrl(base64Image, img) {
            ParseImageExact(base64Image, img);
          }
        }
        Err(InvalidImageString)
      case Some(img) =>
        ParseImageExact(base64Image, img);
        Ok(UpdateData(about, mobile, Some(ImageUrl(protocol, host, ImageFilename(userId, nowMs, img.ext)))))
    else
      Ok(UpdateData(about, mobile, if upload.Some? then Some(ImageUrl(protocol, host, upload.value)) else None))
  }

  /** The `$set` applied to one document: the fields in `d` change, the
      update time moves to `nowMs`, and nothing else changes. */
  function ApplyUpdate(a: Account, d: UpdateData, nowMs: nat): (b: Account)
    ensures b.about == d.about && b.mobile == d.mobile && b.updatedAt == nowMs
    ensures b.image == (if d.image.Some? then d.image.value else a.image)
    ensures b.(about := a.about, mobile := a.mobile, image := a.image, updatedAt := a.updatedAt) == a
  {
    a.(about := d.about, mobile := d.mobile, image := if d.image.Some? then d.image.value else a.image, updatedAt := nowMs)
  }

  lemma ApplyUpdateKeepsStore(users: map<string, Account>, e: string, d: UpdateData, nowMs: nat)
    requires StoreInvariant(users) && e in users
    ensures StoreInvariant(users[e := ApplyUpdate(users[e], d, nowMs)])
  {
    var users' := users[e := ApplyUpdate(users[e], d, nowMs)];
    assert forall e' | e' in users' :: users'[e'].id == users[e'].id;
  }

  /** The key of the document with id `id`, if there is one. */
  ghost function KeyOfId(users: map<string, Account>, id: Id): (r: Option<string>)
    ensures r.Some? ==> r.value in users && users[r.value].id == id
    ensures r.None? ==> forall e | e in users :: users[e].id != id
  {
    if exists e | e in users :: users[e].id == id then
      var e :| e in users && users[e].id == id; Some(e)
    else None
  }

  datatype UpdateResponse = InvalidImageData(error: string) | UserNotFound | Updated(user: Profile)
  {
    function Status(): nat {
      match this
      case InvalidImageData(_) => 400
      case UserNotFound => 404
      case Updated(_) => 200
    }

    function Message(): string {
      match this
      case InvalidImageData(_) => "Invalid image data"
      case UserNotFound => "User not found"
      case Updated(_) => "User updated successfully"
    }
  }

  /** `updateUser` for the caller whose token carries `callerId`, at `nowMs`. */
  method UpdateUser(store: UserStore, callerId: Id, about: string, mobile: string, base64Image: string,
                    upload: Option<string>, protocol: string, host: string, nowMs: nat) returns (r: UpdateResponse)
    requires store.Valid()
    modifies store
    ensures store.Valid() && store.nextId == old(store.nextId)
    ensures match UpdateDataFor(callerId, about, mobile, base64Image, upload, protocol, host, nowMs)
      case Err(error) => r == InvalidImageData(error) && store.accounts == old(store.accounts)
      case Ok(d) =>
        match KeyOfId(old(store.accounts), callerId)
        case None => r == UserNotFound && store.accounts == old(store.accounts)
        case Some(e) =>
          var updated := ApplyUpdate(old(store.accounts)[e], d, nowMs);
          store.accounts == old(store.accounts)[e := updated] && r == Updated(Sanitize(updated))
  {
    var updateData := UpdateData(about, mobile, None);
    if base64Image != "" {
      var parsed := ParseImage(base64Image);
      if parsed.None? {
        return InvalidImageData(InvalidImageString);
      }
      var filename := ImageFilename(callerId, nowMs, parsed.value.ext);
      updateData := updateData.(image := Some(ImageUrl(protocol, host, filename)));
    } else if upload.Some? {
      updateData := updateData.(image := Some(ImageUrl(protocol, host, upload.value)));
    }
    if !exists e | e in store.accounts :: store.accounts[e].id == callerId {
      return UserNotFound;
    }
    var e :| e in store.accounts && store.accounts[e].id == callerId;
    assert KeyOfId(store.accounts, callerId) == Some(e);
    var updated := ApplyUpdate(store.accounts[e], updateData, nowMs);
    ApplyUpdateKeepsStore(store.accounts, e, updateData, nowMs);
    store.accounts := store.accounts[e := updated];
    r := Updated(Sanitize(updated));
  }

  // ---------------------------------------------------------------------
  // getAllUsers

  /** `getAllUsers`: every document whose id is not the caller's, without
      password, otp and version key. */
  function GetAllUsers(users: map<string, Account>, callerId: Id): (r: set<Profile>)
    ensures forall p | p in r :: p.id != callerId
    ensures forall e | e in users && users[e].id != callerId :: Sanitize(users[e]) in r
    ensures forall p | p in r :: exists e | e in users && users[e].id != callerId :: p == Sanitize(users[e])
  {
    set e | e in users && users[e].id != callerId :: Sanitize(users[e])
  }

  /** Taking one document out of the collection takes at most its record
      out of the listing. */
  lemma GetAllUsersRemove(users: map<string, Account>, k: string, callerId: Id)
    requires k in users
    ensures GetAllUsers(users, callerId) ==
      GetAllUsers(users - {k}, callerId) + (if users[k].id != callerId then {Sanitize(users[k])} else {})
  {
    var rest := users - {k};
    forall p | p in GetAllUsers(users, callerId)
      ensures p in GetAllUsers(rest, callerId) + (if users[k].id != callerId then {Sanitize(users[k])} else {})
    {
      var e :| e in users && users[e].id != callerId && p == Sanitize(users[e]);
      if e != k {
        assert e in rest && rest[e] == users[e];
      }
    }
  }

  /** With unique ids, a document's record is not listed for the others. */
  lemma RecordNotAmongOthers(users: map<string, Account>, k: string, callerId: Id)
    requires StoreInvariant(users) && k in users
    ensures Sanitize(users[k]) !in GetAllUsers(users - {k}, callerId)
  {
  }

  /** Some document has id `id`. */
  ghost predicate HasId(users: map<string, Account>, id: Id) {
    exists e | e in users :: users[e].id == id
  }

  /** The listing holds one record per other account: all of them but the
      caller's own. */
  lemma {:induction false} GetAllUsersCount(users: map<string, Account>, callerId: Id)
    requires StoreInvariant(users)
    ensures |GetAllUsers(users, callerId)| == |users| - (if HasId(users, callerId) then 1 else 0)
    decreases |users|
  {
    if users != map[] {
      var k :| k in users;
      var rest := users - {k};
      assert |rest| == |users| - 1 by {
        assert rest.Keys == users.Keys - {k};
      }
      assert forall e | e in rest :: rest[e] == users[e];
      assert StoreInvariant(rest);
      GetAllUsersCount(rest, callerId);
      GetAllUsersRemove(users, k, callerId);
      if users[k].id != callerId {
        RecordNotAmongOthers(users, k, callerId);
        if HasId(users, callerId) {
          var e :| e in users && users[e].id == callerId;
          assert e in rest;
        }
      } else {
        assert HasId(users, callerId);
        assert !HasId(rest, callerId);
      }
    }
  }
}
