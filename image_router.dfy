/** The upload endpoint of api/routers/images.py: the extension check
    `validate_image_type` and the validate-first order of `upload_image`. */
module ImageRouter {
  import opened Records
  import opened Text
  import Upload

  /** `ALLOWED_EXTENSIONS`. */
  const AllowedExtensions: seq<string> := [".jpg", ".jpeg", ".png", ".gif", ".webp"]

  /** An `HTTPException`: a status code and a detail message. */
  datatype HttpError = HttpError(statusCode: int, detail: string)

  /** The detail of the rejection: the allowed extensions joined by ", ". */
  const NotAllowedDetail := "File type not allowed. Allowed types: " + Join(AllowedExtensions, ", ")

  /** `"." + file.filename.split(".")[-1].lower()`. */
  function FileExtension(filename: string): string
  {
    "." + Lower(LastSegment(filename, '.'))
  }

  /** `validate_image_type(file)`: the extension when it is allowed, otherwise a 400
      error listing the allowed extensions. */
  function ValidateImageType(filename: string): (r: Result<string, HttpError>)
    ensures r.Ok? <==> FileExtension(filename) in AllowedExtensions
    ensures r.Ok? ==> r.value == FileExtension(filename) && r.value in AllowedExtensions
    ensures r.Err? ==> r.error.statusCode == 400 && r.error.detail == NotAllowedDetail
  {
    var fileExt := FileExtension(filename);
    if fileExt !in AllowedExtensions then
      Err(HttpError(400, "File type not allowed. Allowed types: " + Join(AllowedExtensions, ", ")))
    else
      Ok(fileExt)
  }

  /** The rejection message spells out the list. */
  lemma NotAllowedDetailText()
    ensures NotAllowedDetail == "File type not allowed. Allowed types: " + ".jpg, .jpeg, .png, .gif, .webp"
  {
    var sep := ", ";
    JoinAppendPart([".jpg"], ".jpeg", sep);
    assert [".jpg"] + [".jpeg"] == [".jpg", ".jpeg"];
    assert Join([".jpg", ".jpeg"], sep) == ".jpg, .jpeg";
    JoinAppendPart([".jpg", ".jpeg"], ".png", sep);
    assert [".jpg", ".jpeg"] + [".png"] == [".jpg", ".jpeg", ".png"];
    assert Join([".jpg", ".jpeg", ".png"], sep) == ".jpg, .jpeg, .png";
    JoinAppendPart([".jpg", ".jpeg", ".png"], ".gif", sep);
    assert [".jpg", ".jpeg", ".png"] + [".gif"] == [".jpg", ".jpeg", ".png", ".gif"];
    assert Join([".jpg", ".jpeg", ".png", ".gif"], sep) == ".jpg, .jpeg, .png, .gif";
    JoinAppendPart([".jpg", ".jpeg", ".png", ".gif"], ".webp", sep);
    assert [".jpg", ".jpeg", ".png", ".gif"] + [".webp"] == AllowedExtensions;
  }

  /** The extension of a name with a dot is what follows the last dot, lower-cased. */
  lemma ExtensionAfterDot(stem: string, ext: string)
    requires '.' !in ext
    ensures FileExtension(stem + "." + ext) == "." + Lower(ext)
  {
    assert stem + "." + ext == stem + ['.'] + ext;
    LastSegmentAfterSep(stem, ext, '.');
  }

  /** The extension of a name without a dot is the whole name, lower-cased. */
  lemma ExtensionWithoutDot(name: string)
    requires '.' !in name
    ensures FileExtension(name) == "." + Lower(name)
  {
    LastSegmentWithoutSep(name, '.');
  }

  /** Matching ignores case: "PHOTO.JPG" is accepted as ".jpg". */
  lemma UpperCaseNameAccepted()
    ensures ValidateImageType("PHOTO.JPG") == Ok(".jpg")
  {
    ExtensionAfterDot("PHOTO", "JPG");
    assert "PHOTO" + "." + "JPG" == "PHOTO.JPG";
    assert Lower("JPG")[0] == 'j' && Lower("JPG")[1] == 'p' && Lower("JPG")[2] == 'g';
    assert "." + Lower("JPG") == ".jpg" == AllowedExtensions[0];
  }

  /** A name without a dot is its own extension, so a file called "png" is accepted. */
  lemma BareExtensionAccepted()
    ensures ValidateImageType("png") == Ok(".png")
  {
    ExtensionWithoutDot("png");
    assert Lower("png") == "png";
    assert FileExtension("png") == AllowedExtensions[2];
  }

  /** A name ending in a dot has the extension "." and is rejected, and so is a
      PDF document, with status 400 and the list of allowed extensions. */
  lemma OtherNamesRejected()
    ensures ValidateImageType("photo.") == Err(HttpError(400, NotAllowedDetail))
    ensures ValidateImageType("doc.pdf") == Err(HttpError(400, NotAllowedDetail))
  {
    ExtensionAfterDot("photo", "");
    assert "photo" + "." + "" == "photo.";
    ExtensionAfterDot("doc", "pdf");
    assert "doc" + "." + "pdf" == "doc.pdf";
    assert Lower("pdf") == "pdf";
    assert FileExtension("doc.pdf") == ".pdf";
    assert forall x | x in AllowedExtensions :: x[1] != 'p' || x[2] != 'd';
  }

  /** Prefixing a dot is one-to-one. */
  lemma DotPrefixInjective(a: string, b: string)
    ensures "." + a == "." + b <==> a == b
  {
    if "." + a == "." + b {
      assert a == ("." + a)[1..];
      assert b == ("." + b)[1..];
    }
  }

  /** An extension behind a dot is allowed exactly when it is one of the five
      image extensions. */
  lemma DottedAllowed(e: string)
    ensures "." + e in AllowedExtensions <==> e in ["jpg", "jpeg", "png", "gif", "webp"]
  {
    assert ".jpg" == "." + "jpg" && ".jpeg" == "." + "jpeg" && ".png" == "." + "png";
    assert ".gif" == "." + "gif" && ".webp" == "." + "webp";
    DotPrefixInjective(e, "jpg");
    DotPrefixInjective(e, "jpeg");
    DotPrefixInjective(e, "png");
    DotPrefixInjective(e, "gif");
    DotPrefixInjective(e, "webp");
  }

  /** Every file the upload card keeps passes the server check, and the server
      accepts exactly one more kind of file than the client: a file passes the
      server but is dropped by the client exactly when its extension is "gif". */
  lemma ClientServerAgreement(f: Upload.FileEntry)
    ensures Upload.IsSupported(f) ==> ValidateImageType(f.name).Ok?
    ensures ValidateImageType(f.name).Ok? && !Upload.IsSupported(f) <==> Upload.ClientExtension(f.name) == "gif"
  {
    DottedAllowed(Upload.ClientExtension(f.name));
  }

  /** "anim.gif" is the witness: the server would store it, the client never sends it. */
  lemma GifOnlyOnServer()
    ensures ValidateImageType("anim.gif") == Ok(".gif")
    ensures !Upload.IsSupported(Upload.FileEntry("anim.gif", 1))
  {
    ExtensionAfterDot("anim", "gif");
    assert "anim" + "." + "gif" == "anim.gif";
    assert Lower("gif") == "gif";
    assert "." + Lower("gif") == ".gif" == AllowedExtensions[3];
    LastSegmentAfterSep("anim", "gif", '.');
    assert Upload.ClientExtension("anim.gif") == "gif";
    assert forall x | x in Upload.SupportedExtensions :: x != "gif";
  }

  /** The side effects of `upload_image`, in the order they happen. */
  datatype Effect =
    | StoreObject(filename: string)
    | AddRecord(name: string, storagePath: string)
    | Commit
    | Publish(imageId: int, storagePath: string)

  /** `upload_image(file)`: validates, stores the object, inserts and commits the
      record, and publishes the processing message. The storage key and the new id
      come from the object store and the database and are parameters here. A
      rejected name causes no side effect at all; an accepted one causes the four
      effects in that order and answers with the new id and the name. */
  method UploadImage(filename: string, objectKey: string, newId: int)
    returns (response: Result<(int, string), HttpError>, effects: seq<Effect>)
    ensures ValidateImageType(filename).Err? ==> effects == [] && response == Err(ValidateImageType(filename).error)
    ensures ValidateImageType(filename).Ok? ==>
      && response == Ok((newId, filename))
      && effects == [StoreObject(filename), AddRecord(filename, objectKey), Commit, Publish(newId, objectKey)]
    ensures effects != [] ==> effects[0] == StoreObject(filename) && FileExtension(filename) in AllowedExtensions
  {
    effects := [];
    var validated := ValidateImageType(filename);
    if validated.Err? {
      return Err(validated.error), effects;
    }
    effects := effects + [StoreObject(filename)];
    var storagePath := objectKey;
    effects := effects + [AddRecord(filename, storagePath)];
    effects := effects + [Commit];
    effects := effects + [Publish(newId, storagePath)];
    response := Ok((newId, filename));
  }
}
