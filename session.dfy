/** The request handlers of the web application and the process-wide
    dictionary they share (`app.config`), together with the temporary files
    they create and delete. */
module Session {
  import opened Wrappers
  import opened Words
  import opened TextPipeline

  newtype byte = b: int | 0 <= b < 256

  type Bytes = seq<byte>

  /** The files that exist, by path, with their contents. */
  type Disk = map<string, Bytes>

  const PdfKeyPrefix: string := "pdf_file_"
  const ImageKeyPrefix: string := "generated_image_"
  const PdfSuffix: string := ".pdf"
  const DownloadName: string := "course_image.png"

  const NoFilePartMessage: string := "No file part"
  const NoSelectedFileMessage: string := "No selected file"
  const NotPdfMessage: string := "Please upload a PDF file"
  const FileExpiredMessage: string := "File not found or has expired"
  const PdfErrorMessage: string := "Error processing PDF file"
  const GenerationErrorMessage: string := "Error generating image"
  const ImageExpiredMessage: string := "Image not found or has expired"
  const DownloadErrorMessage: string := "Error downloading image"
  const ProcessErrorMessage: string := "Error processing file"

  /** Store key of the uploaded PDF's path for a session: it starts with
      'p' and the session id can be read back from it. */
  function PdfKey(id: string): (k: string)
    ensures |k| >= |PdfKeyPrefix| && k[0] == 'p'
    ensures k[|PdfKeyPrefix|..] == id
  {
    PdfKeyPrefix + id
  }

  /** Store key of the generated image's path for a session: it starts with
      'g' and the session id can be read back from it. */
  function ImageKey(id: string): (k: string)
    ensures |k| >= |ImageKeyPrefix| && k[0] == 'g'
    ensures k[|ImageKeyPrefix|..] == id
  {
    ImageKeyPrefix + id
  }

  /** The two roles never share a key: the prefixes differ at the first
      character. */
  lemma KeysNeverCollide(a: string, b: string)
    ensures PdfKey(a) != ImageKey(b)
  {
    assert PdfKey(a)[0] == 'p';
    assert ImageKey(b)[0] == 'g';
  }

  /** Within one role, distinct sessions have distinct keys. */
  lemma KeysInjective(a: string, b: string)
    ensures PdfKey(a) == PdfKey(b) ==> a == b
    ensures ImageKey(a) == ImageKey(b) ==> a == b
  {
    assert PdfKey(a)[|PdfKeyPrefix|..] == a && PdfKey(b)[|PdfKeyPrefix|..] == b;
    assert ImageKey(a)[|ImageKeyPrefix|..] == a && ImageKey(b)[|ImageKeyPrefix|..] == b;
  }

  /** `s.endswith(suffix)`: `s` is some string followed by `suffix`,
      compared character by character (so case matters). */
  predicate EndsWith(s: string, suffix: string): (b: bool)
    ensures b <==> exists p :: s == p + suffix
  {
    EndsWithSplit(s, suffix);
    |suffix| <= |s| && s[|s| - |suffix|..] == suffix
  }

  lemma EndsWithSplit(s: string, suffix: string)
    ensures (|suffix| <= |s| && s[|s| - |suffix|..] == suffix) <==> exists p :: s == p + suffix
  {
    if |suffix| <= |s| && s[|s| - |suffix|..] == suffix {
      assert s == s[..|s| - |suffix|] + suffix;
    }
    if exists p :: s == p + suffix {
      var p :| s == p + suffix;
      assert s[|p|..] == suffix;
    }
  }

  /** `os.path.join(a, b)` on POSIX: an absolute `b` replaces `a`; otherwise
      a '/' is put between them unless `a` is empty or already ends in one. */
  function JoinPath(a: string, b: string): (r: string)
    ensures EndsWith(r, b)
    ensures |b| > 0 && b[0] == '/' ==> r == b
    ensures (|b| == 0 || b[0] != '/') ==> |a| <= |r| && r[..|a|] == a
  {
    if |b| > 0 && b[0] == '/' then b
    else if a == [] || a[|a| - 1] == '/' then a + b
    else a + "/" + b
  }

  /** Joining a directory with two relative names gives the same path only
      for the same name. */
  lemma JoinPathInjective(dir: string, x: string, y: string)
    requires |x| > 0 && x[0] != '/' && |y| > 0 && y[0] != '/'
    ensures JoinPath(dir, x) == JoinPath(dir, y) ==> x == y
  {
    var sep := if dir == [] || dir[|dir| - 1] == '/' then "" else "/";
    assert JoinPath(dir, x) == (dir + sep) + x;
    assert JoinPath(dir, y) == (dir + sep) + y;
    assert ((dir + sep) + x)[|dir + sep|..] == x;
    assert ((dir + sep) + y)[|dir + sep|..] == y;
  }

  lemma ImageNameInjective(a: string, b: string)
    ensures ImageKeyPrefix + a + ".png" == ImageKeyPrefix + b + ".png" ==> a == b
  {
    var na, nb := ImageKeyPrefix + a + ".png", ImageKeyPrefix + b + ".png";
    assert na[|ImageKeyPrefix|..|na| - 4] == a;
    assert nb[|ImageKeyPrefix|..|nb| - 4] == b;
  }

  /** How a session id read from the query string is formatted into a key:
      a missing id formats as "None". */
  function SessionText(arg: Option<string>): (id: string)
    ensures arg.Some? ==> id == arg.value
    ensures arg.None? ==> id == "None"
  {
    match arg
    case Some(s) => s
    case None => "None"
  }

  /** The test `path and os.path.exists(path)`: a stored, non-empty path to
      a file that exists. */
  predicate Present(path: Option<string>, disk: Disk): (b: bool)
    ensures b ==> path.Some? && path.value in disk
    ensures path.None? || path == Some("") ==> !b
  {
    path.Some? && path.value != "" && path.value in disk
  }

  /** The file field of an upload form, when there is one. */
  datatype FilePart = FilePart(filename: string, content: Bytes)

  datatype IndexRequest = Get | Post(file: Option<FilePart>)

  /** What a handler answers. */
  datatype Response =
    | UploadPage                                            // the upload form
    | BackToUpload(message: string)                         // flash the message, redirect to the form
    | ToProcess(filename: string, sessionId: string)        // redirect to the processing step
    | ToResult(sessionId: string, prompt: string)           // redirect to the result view
    | ResultPage(image: Bytes, sessionId: string, prompt: string)
    | Attachment(image: Bytes, downloadName: string)
    | ServerError                                           // an exception the handler does not catch

  /** An upload is taken when a file part is present, its name is not empty
      and ends in ".pdf" (case matters). */
  predicate Accepted(request: IndexRequest): (b: bool)
    ensures b ==> request.Post? && request.file.Some? &&
                  exists stem :: request.file.value.filename == stem + PdfSuffix
    ensures b ==> |request.file.value.filename| >= |PdfSuffix|
  {
    request.Post? && request.file.Some? &&
    request.file.value.filename != "" && EndsWith(request.file.value.filename, PdfSuffix)
  }

  /** Which names the upload check takes: the suffix must be ".pdf" exactly,
      and the name may be nothing but the suffix. */
  lemma AcceptedExamples(content: Bytes)
    ensures Accepted(Post(Some(FilePart("report.pdf", content))))
    ensures Accepted(Post(Some(FilePart(".pdf", content))))
    ensures !Accepted(Post(Some(FilePart("report.PDF", content))))
    ensures !Accepted(Post(Some(FilePart("report.pdf.txt", content))))
    ensures !Accepted(Post(Some(FilePart("", content))))
    ensures !Accepted(Post(None)) && !Accepted(Get)
  {
    assert "report.pdf" == "report" + PdfSuffix;
    assert ".pdf" == "" + PdfSuffix;
    var big := "report.PDF";
    assert big[|big| - 4..][1] == 'P';
    var txt := "report.pdf.txt";
    assert txt[|txt| - 4..][1] == 't';
  }

  /** The store after a session's two keys are popped: exactly those keys
      are gone, and every other entry is as it was. */
  function Purge(config: map<string, string>, id: string): (c: map<string, string>)
    ensures forall k :: k in c <==> k in config && k != PdfKey(id) && k != ImageKey(id)
    ensures forall k :: k in c ==> c[k] == config[k]
  {
    config - {PdfKey(id), ImageKey(id)}
  }

  /** The paths among `paths` that the cleanup loop deletes. */
  function Truthy(paths: seq<Option<string>>): (r: set<string>)
    ensures forall p :: p in r <==> p != "" && Some(p) in paths
  {
    set p | p in paths && p.Some? && p.value != "" :: p.value
  }

  /** The files a cleanup of session `id` deletes from `disk`: at most the
      two paths the store holds for that session, and never an empty one. */
  function SessionFiles(config: map<string, string>, id: string): (r: set<string>)
    ensures forall p :: p in r ==>
      (p != "" &&
       ((PdfKey(id) in config && config[PdfKey(id)] == p) ||
        (ImageKey(id) in config && config[ImageKey(id)] == p)))
    ensures PdfKey(id) in config && config[PdfKey(id)] != "" ==> config[PdfKey(id)] in r
    ensures ImageKey(id) in config && config[ImageKey(id)] != "" ==> config[ImageKey(id)] in r
  {
    Truthy([Lookup(config, PdfKey(id)), Lookup(config, ImageKey(id))])
  }

  lemma TruthyStep(paths: seq<Option<string>>, i: nat)
    requires i < |paths|
    ensures Truthy(paths[..i + 1]) ==
      Truthy(paths[..i]) + (if paths[i].Some? && paths[i].value != "" then {paths[i].value} else {})
  {
    assert paths[..i + 1] == paths[..i] + [paths[i]];
  }

  /** A second cleanup of the same session changes nothing. */
  lemma CleanupIdempotent(config: map<string, string>, disk: Disk, id: string)
    ensures Purge(Purge(config, id), id) == Purge(config, id)
    ensures SessionFiles(Purge(config, id), id) == {}
    ensures (disk - SessionFiles(config, id)) - SessionFiles(Purge(config, id), id) ==
            disk - SessionFiles(config, id)
  {
    var c := Purge(config, id);
    assert Lookup(c, PdfKey(id)) == None && Lookup(c, ImageKey(id)) == None;
  }

  /** A cleanup touches no other session's entries. */
  lemma PurgeKeepsOtherSessions(config: map<string, string>, id: string, other: string)
    requires other != id
    ensures Lookup(Purge(config, id), PdfKey(other)) == Lookup(config, PdfKey(other))
    ensures Lookup(Purge(config, id), ImageKey(other)) == Lookup(config, ImageKey(other))
  {
    KeysInjective(id, other);
    KeysNeverCollide(other, id);
    KeysNeverCollide(id, other);
  }

  /** The application state: the shared dictionary and the files on disk.
      `tempRoot` is the system temporary directory (`tempfile.gettempdir()`). */
  class App {
    var config: map<string, string>
    var files: Disk
    const tempRoot: string

    /** Where the generated image of a session is written: a file named
        `generated_image_<id>.png` in the temporary directory. */
    function ImagePath(id: string): (p: string)
      reads this
      ensures EndsWith(p, ImageKeyPrefix + id + ".png")
      ensures |tempRoot| <= |p| && p[..|tempRoot|] == tempRoot
    {
      assert (ImageKeyPrefix + id + ".png")[0] == 'g';
      JoinPath(tempRoot, ImageKeyPrefix + id + ".png")
    }

    /** Distinct sessions write distinct image files. */
    lemma ImagePathInjective(a: string, b: string)
      ensures ImagePath(a) == ImagePath(b) ==> a == b
    {
      var na, nb := ImageKeyPrefix + a + ".png", ImageKeyPrefix + b + ".png";
      assert na[0] == 'g' && nb[0] == 'g';
      JoinPathInjective(tempRoot, na, nb);
      ImageNameInjective(a, b);
    }

    /** Writing a session's image never overwrites an uploaded PDF: an
        upload path ends in ".pdf" and an image path in ".png". */
    lemma ImageNeverOverwritesUpload(id: string, tempDir: string, filename: string)
      requires EndsWith(filename, PdfSuffix)
      ensures ImagePath(id) != JoinPath(tempDir, filename)
    {
      var up, img := JoinPath(tempDir, filename), ImagePath(id);
      var name := ImageKeyPrefix + id + ".png";
      assert EndsWith(up, filename);
      assert up[|up| - 4..] == filename[|filename| - 4..];
      assert img[|img| - 4..] == name[|name| - 4..];
      assert up[|up| - 4..][3] == 'f';
      assert img[|img| - 4..][3] == 'g';
    }

    /** A session has an image entry only if it has an upload entry, and the
        image entry always names that session's image file. */
    ghost predicate Valid()
      reads this
    {
      forall id :: ImageKey(id) in config ==>
        PdfKey(id) in config && config[ImageKey(id)] == ImagePath(id)
    }

    /** Under the invariant, a session whose image key is set still has its
        upload recorded, and the image key names that session's own file. */
    lemma ImageImpliesUpload(id: string)
      requires Valid() && ImageKey(id) in config
      ensures Lookup(config, PdfKey(id)).Some?
      ensures Lookup(config, ImageKey(id)) == Some(ImagePath(id))
    {
    }

    constructor (tempRoot: string, initialConfig: map<string, string>, initialFiles: Disk)
      requires forall id :: ImageKey(id) !in initialConfig
      ensures Valid()
      ensures this.tempRoot == tempRoot && config == initialConfig && files == initialFiles
    {
      this.tempRoot := tempRoot;
      config := initialConfig;
      files := initialFiles;
    }

    /** `index`: a GET shows the form; a POST with an acceptable file saves
        it under `tempDir` (a fresh `mkdtemp` directory) and records its path
        under the new session's key; any other POST redirects back with a
        message and changes nothing. `sessionId` stands for `time.time()`.
        `saveFails` says that `file.save` raises (for example when the name
        has a directory part that does not exist); the handler has no
        `except`, so the request fails and nothing is recorded. */
    method Index(request: IndexRequest, tempDir: string, sessionId: string, saveFails: bool)
      returns (r: Response)
      requires Valid()
      modifies this
      ensures Valid()
      ensures request.Get? ==> r == UploadPage
      ensures request.Post? && request.file.None? ==> r == BackToUpload(NoFilePartMessage)
      ensures request.Post? && request.file.Some? && request.file.value.filename == "" ==>
        r == BackToUpload(NoSelectedFileMessage)
      ensures (request.Post? && request.file.Some? && request.file.value.filename != "" &&
               !EndsWith(request.file.value.filename, PdfSuffix)) ==> r == BackToUpload(NotPdfMessage)
      ensures Accepted(request) && saveFails ==> r == ServerError
      ensures r.ToProcess? <==> Accepted(request) && !saveFails
      ensures Accepted(request) && !saveFails ==>
        var file := request.file.value;
        var path := JoinPath(tempDir, file.filename);
        && r == ToProcess(file.filename, sessionId)
        && config == old(config)[PdfKey(sessionId) := path]
        && files == old(files)[path := file.content]
      ensures !r.ToProcess? ==> config == old(config) && files == old(files)
    {
      if request.Get? {
        return UploadPage;
      }
      if request.file.None? {
        return BackToUpload(NoFilePartMessage);
      }
      var file := request.file.value;
      if file.filename == "" {
        return BackToUpload(NoSelectedFileMessage);
      }
      if EndsWith(file.filename, PdfSuffix) {
        if saveFails {
          return ServerError;
        }
        var path := JoinPath(tempDir, file.filename);
        files := files[path := file.content];
        forall id ensures ImageKey(id) != PdfKey(sessionId) {
          KeysNeverCollide(sessionId, id);
        }
        config := config[PdfKey(sessionId) := path];
        r := ToProcess(file.filename, sessionId);
      } else {
        r := BackToUpload(NotPdfMessage);
      }
    }

    /** `process_pdf`: if the session's upload is recorded and still on
        disk, extract its text, build the prompt and generate an image; only
        when both extraction and generation succeed is the image written and
        its path recorded. `parse` is the PDF reader applied to the file's
        bytes and `generate` the image service applied to the prompt. Without
        a `session_id` argument the redirect to the result view cannot be
        built (the route needs an id), so after the image has been written
        and recorded the request ends in the handler's general error. */
    method ProcessPdf(sessionArg: Option<string>, parse: Bytes -> PdfReading,
                      generate: string -> Option<Bytes>) returns (r: Response)
      requires Valid()
      modifies this
      ensures Valid()
      ensures var id := SessionText(sessionArg);
        var pdf := Lookup(old(config), PdfKey(id));
        if !Present(pdf, old(files)) then
          r == BackToUpload(FileExpiredMessage)
        else match ExtractText(parse(old(files)[pdf.value]))
          case None => r == BackToUpload(PdfErrorMessage)
          case Some(text) =>
            match generate(BuildPrompt(text))
            case None => r == BackToUpload(GenerationErrorMessage)
            case Some(image) =>
              && r == (if sessionArg.Some? then ToResult(id, BuildPrompt(text))
                       else BackToUpload(ProcessErrorMessage))
              && config == old(config)[ImageKey(id) := ImagePath(id)]
              && files == old(files)[ImagePath(id) := image]
      ensures r.ToResult? ==> sessionArg.Some?
      ensures r.BackToUpload? && r.message != ProcessErrorMessage ==>
        config == old(config) && files == old(files)
    {
      var id := SessionText(sessionArg);
      var pdf := Lookup(config, PdfKey(id));
      if !Present(pdf, files) {
        return BackToUpload(FileExpiredMessage);
      }
      var text := ExtractText(parse(files[pdf.value]));
      if text.None? {
        return BackToUpload(PdfErrorMessage);
      }
      var prompt := BuildPrompt(text.value);
      var image := generate(prompt);
      if image.None? {
        return BackToUpload(GenerationErrorMessage);
      }
      var imagePath := ImagePath(id);
      files := files[imagePath := image.value];
      forall other | ImageKey(other) == ImageKey(id) ensures other == id {
        KeysInjective(other, id);
      }
      config := config[ImageKey(id) := imagePath];
      if sessionArg.None? {
        return BackToUpload(ProcessErrorMessage);
      }
      r := ToResult(id, prompt);
    }

    /** `result`: the stored image of the session together with the prompt
        from the query string (empty when absent), or a redirect when the
        session has no image on disk; no file is read in that case. */
    function ResultView(id: string, promptArg: Option<string>): (r: Response)
      reads this
      ensures r.ResultPage? <==> Present(Lookup(config, ImageKey(id)), files)
      ensures r.ResultPage? ==>
        r == ResultPage(files[config[ImageKey(id)]], id, promptArg.GetOr(""))
      ensures !r.ResultPage? ==> r == BackToUpload(ImageExpiredMessage)
    {
      var image := Lookup(config, ImageKey(id));
      if !Present(image, files) then BackToUpload(ImageExpiredMessage)
      else ResultPage(files[image.value], id, promptArg.GetOr(""))
    }

    /** `cleanup_files`: delete the session's uploaded and generated files
        where they exist, then pop both of its keys. */
    method Cleanup(id: string)
      requires Valid()
      modifies this
      ensures Valid()
      ensures config == Purge(old(config), id)
      ensures files == old(files) - SessionFiles(old(config), id)
    {
      var pdfPath := Lookup(config, PdfKey(id));
      var imagePath := Lookup(config, ImageKey(id));
      var paths := [pdfPath, imagePath];
      for i := 0 to |paths|
        invariant config == old(config)
        invariant files == old(files) - Truthy(paths[..i])
      {
        TruthyStep(paths, i);
        var path := paths[i];
        if path.Some? && path.value != "" && path.value in files {
          files := files - {path.value};
        }
      }
      assert paths[..|paths|] == paths;
      forall other | ImageKey(other) in Purge(config, id)
        ensures PdfKey(other) in Purge(config, id)
      {
        PurgeKeepsOtherSessions(config, id, other);
      }
      config := Purge(config, id);
    }

    /** `download_image`: send the session's image as an attachment and
        then clean the session up; a missing image, or a failure while
        sending (`sendFails`), redirects with a message and changes nothing. */
    method Download(id: string, sendFails: bool) returns (r: Response)
      requires Valid()
      modifies this
      ensures Valid()
      ensures var image := Lookup(old(config), ImageKey(id));
        if !Present(image, old(files)) then
          r == BackToUpload(ImageExpiredMessage) && config == old(config) && files == old(files)
        else if sendFails then
          r == BackToUpload(DownloadErrorMessage) && config == old(config) && files == old(files)
        else
          && r == Attachment(old(files)[image.value], DownloadName)
          && config == Purge(old(config), id)
          && files == old(files) - SessionFiles(old(config), id)
      ensures r.Attachment? ==> ImageKey(id) !in config && PdfKey(id) !in config
    {
      var image := Lookup(config, ImageKey(id));
      if !Present(image, files) {
        return BackToUpload(ImageExpiredMessage);
      }
      if sendFails {
        return BackToUpload(DownloadErrorMessage);
      }
      r := Attachment(files[image.value], DownloadName);
      Cleanup(id);
    }
  }

  /** After a successful download, the result view and a second download of
      the same session both take the "Image not found or has expired"
      redirect, and the second download changes nothing. */
  method DownloadThenRetry(app: App, id: string, sendFails: bool, promptArg: Option<string>,
                           sendFailsAgain: bool)
    returns (first: Response, view: Response, second: Response)
    requires app.Valid()
    modifies app
    ensures app.Valid()
    ensures first.Attachment? ==>
      && view == BackToUpload(ImageExpiredMessage)
      && second == BackToUpload(ImageExpiredMessage)
      && app.config == Purge(old(app.config), id)
      && app.files == old(app.files) - SessionFiles(old(app.config), id)
  {
    first := app.Download(id, sendFails);
    view := app.ResultView(id, promptArg);
    second := app.Download(id, sendFailsAgain);
  }

  /** Cleaning a session up twice leaves the same state as once. */
  method CleanupTwice(app: App, id: string)
    requires app.Valid()
    modifies app
    ensures app.Valid()
    ensures app.config == Purge(old(app.config), id)
    ensures app.files == old(app.files) - SessionFiles(old(app.config), id)
  {
    app.Cleanup(id);
    CleanupIdempotent(old(app.config), old(app.files), id);
    app.Cleanup(id);
  }

  /** The whole happy path for one session: an accepted upload, a
      successful pipeline run, the result view showing the generated image,
      and a download returning the same bytes and invalidating the session. */
  method HappyPath(app: App, file: FilePart, tempDir: string, sessionId: string,
                   parse: Bytes -> PdfReading, generate: string -> Option<Bytes>)
    returns (uploaded: Response, processed: Response, view: Response, downloaded: Response)
    requires app.Valid()
    requires file.filename != "" && EndsWith(file.filename, PdfSuffix)
    requires !parse(file.content).Unreadable?
    requires generate(BuildPrompt(ExtractText(parse(file.content)).value)).Some?
    modifies app
    ensures app.Valid()
    ensures uploaded == ToProcess(file.filename, sessionId)
    ensures var prompt := BuildPrompt(ExtractText(parse(file.content)).value);
      var image := generate(prompt).value;
      && processed == ToResult(sessionId, prompt)
      && view == ResultPage(image, sessionId, prompt)
      && downloaded == Attachment(image, DownloadName)
    ensures PdfKey(sessionId) !in app.config && ImageKey(sessionId) !in app.config
  {
    var path := JoinPath(tempDir, file.filename);
    assert |path| >= |file.filename| > 0;
    var request := Post(Some(file));
    assert Accepted(request);
    uploaded := app.Index(request, tempDir, sessionId, false);
    assert app.config == old(app.config)[PdfKey(sessionId) := path];
    assert app.files == old(app.files)[path := file.content];
    assert Lookup(app.config, PdfKey(sessionId)) == Some(path);
    assert Present(Some(path), app.files) && app.files[path] == file.content;
    var text := ExtractText(parse(file.content));
    assert text.Some?;
    var prompt := BuildPrompt(text.value);
    var image := generate(prompt).value;
    processed := app.ProcessPdf(Some(sessionId), parse, generate);
    assert processed == ToResult(sessionId, prompt);
    var imagePath := app.ImagePath(sessionId);
    assert Lookup(app.config, ImageKey(sessionId)) == Some(imagePath);
    assert app.files[imagePath] == image && imagePath != "";
    view := app.ResultView(sessionId, Some(prompt));
    downloaded := app.Download(sessionId, false);
  }
}
