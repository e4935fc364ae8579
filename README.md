# PDF-to-image web application: text pipeline and session store

A Dafny model of the logic of a small Flask application that takes an
uploaded PDF, keeps the leading words of its first page, wraps them in a
fixed image-generation prompt, asks a remote model for an image and lets the
user view and download it.

Two parts carry real logic and are modelled:

- **Text pipeline** (`words.dfy`, `text_pipeline.dfy`). `Split` is Python's
  `str.split()` over a fixed set of separator characters and `Join` is
  `' '.join`. `ExtractText` keeps the first 50 words of the first page and
  `BuildPrompt` puts the first 30 words of its input into the fixed template.
  These are pure functions. The proved facts are:
  - splitting a join gives back the words, and joining the split of
    single-spaced text gives back the text;
  - truncation keeps a prefix of the words, and truncating to 50 words then
    to 30 is truncating to 30;
  - a prompt is the header, the summary line and a line feed;
  - two inputs give the same prompt exactly when their first 30 words agree.
- **Session store and handlers** (`session.dfy`). `App` is a class with the
  process-wide dictionary `config` (a `map<string, string>`) and the files
  on disk (`files`, a map from path to bytes). Its methods are the four
  handlers and `cleanup_files`; `result` only reads, so it is a function.
  The object invariant says that a session has an image key only if it has
  an upload key, and that the image key names that session's image file.
  `ProcessPdf` writes the image key only when extraction and generation both
  succeed. `Cleanup` removes exactly the session's two keys. After a
  successful download, both the result view and a second download take the
  "Image not found or has expired" redirect.

External steps are parameters:
- the PDF reader is `parse: Bytes -> PdfReading`, applied to the uploaded
  file's bytes;
- the image service is `generate: string -> Option<Bytes>`, applied to the
  prompt;
- the session id, which stands for `time.time()`, and the fresh `mkdtemp`
  directory are arguments of `Index`;
- whether `send_file` raises is the `sendFails` argument of `Download`;
- whether `file.save` raises is the `saveFails` argument of `Index`.

## Behaviour of the source the model keeps

- A document with no pages extracts to the empty text; only a reading error
  gives None. The empty text then goes through the prompt, generation,
  result and download steps like any other (`HappyPath`).
- Each session has two independent keys in the store (`pdf_file_<id>`,
  `generated_image_<id>`), removed one by one.
- Cleanup deletes the uploaded file but not the `mkdtemp` directory that
  holds it.
- A missing `session_id` query argument formats as `None` in the key
  (`SessionText`), so `process_pdf` then looks up `pdf_file_None`. If that
  upload exists and both stages succeed, the image is written and
  `generated_image_None` is set, but `url_for('result', session_id=None)`
  cannot build the route, so the broad `except` flashes "Error processing
  file" (`ProcessPdf`).
- The saved path is `os.path.join(temp_dir, filename)`: an absolute
  filename replaces the directory (`JoinPath`).
- `index` has no exception handler: when saving the upload raises, the
  request fails with a server error and nothing is recorded (`Index` with
  `saveFails`).

## Model

| member | source | states |
|---|---|---|
| `Words.Split` | app.py:29 | every token of `text.split()` is a non-empty run of non-separator characters |
| `Words.Join` | app.py:30 | a join of n strings is empty for none, and otherwise begins with the first string and has their characters plus n-1 separators; for words, `SplitJoin` and `JoinSingleSpaced` give the order and the single ' ' separators |
| `Words.SplitAtSeparator` | app.py:29 | any single separator character (space, tab, line feed, ...) splits the text: the words of `a + c + b` are those of `a` followed by those of `b`, so runs and kinds of whitespace do not matter |
| `Words.Take` | app.py:29 | a slice `[:n]` is a prefix of length min(n, len) |
| `Words.FirstWords` | app.py:29-30 | the words of the truncated text are exactly the first min(n, count) words of the input, in order, and the text is single-spaced |
| `Words.SplitJoin` | app.py:29-30 | re-splitting a space-joined list of words returns those same words |
| `Words.JoinSingleSpaced` | app.py:30 | a join has no leading, trailing or doubled separators, and only ' ' separators |
| `Words.SplitFirstWord` | app.py:29-30 | in single-spaced text of several words, the first word is followed by exactly one space and then by the remaining words |
| `Words.JoinSplit` | app.py:29-30 | rejoining the split of single-spaced text returns the text itself |
| `Words.FirstWordsTwice` | app.py:29-37 | truncating to n words and then to m <= n words equals truncating to m words |
| `Words.FirstWordsKeepsShort` | app.py:29-30 | single-spaced text with at most n words is unchanged by truncation |
| `TextPipeline.ExtractText` | app.py:20-34 | None exactly when reading raises; "" for a document with no pages; otherwise the first 50 words of page one, single-spaced |
| `TextPipeline.BuildPrompt` | app.py:36-51 | the prompt is the fixed header, then a single-spaced summary whose words are the first min(30, count) words of the input, then a line feed |
| `TextPipeline.PromptDeterminedBySummary` | app.py:36-51 | two inputs give identical prompts if and only if their first 30 words agree |
| `TextPipeline.PromptOfExtractedText` | app.py:29-37 | the prompt built from extracted text equals the prompt built from the page text directly |
| `TextPipeline.ChapterOneExample` | app.py:20-51 | "Chapter One Introduction to Systems" is extracted unchanged and appears whole in the prompt |
| `Wrappers.Lookup` | app.py:132 | `dict.get` returns None or a value stored in the dictionary |
| `Wrappers.LookupUpdate` | app.py:117 | after `app.config[k] = v`, `get(k)` gives v and every other key reads as before |
| `Wrappers.LookupRemove` | app.py:226-227 | after `app.config.pop(k, None)`, `get(k)` gives None and every other key reads as before |
| `Session.PdfKey` | app.py:117 | the upload key starts with 'p' and the session id can be read back from it |
| `Session.ImageKey` | app.py:158 | the image key starts with 'g' and the session id can be read back from it |
| `Session.EndsWith` | app.py:108 | `str.endswith` holds exactly when the string is some string followed by the suffix, character for character |
| `Session.Present` | app.py:135 | the test `not path or not os.path.exists(path)` lets through only a stored path that exists on disk; a missing or empty path fails it |
| `Session.Accepted` | app.py:96-108 | an accepted upload is a POST with a file part whose name is some stem followed by ".pdf" |
| `Session.AcceptedExamples` | app.py:96-108 | "report.pdf" and ".pdf" are accepted; "report.PDF", "report.pdf.txt", an empty name, a missing file part and a GET are not |
| `Session.Truthy` | app.py:213-214 | the cleanup loop's `if path` keeps exactly the non-empty paths that are stored |
| `Session.SessionFiles` | app.py:210-214 | what a cleanup deletes is at most the two non-empty paths stored under the session's keys, and includes each of them |
| `Session.JoinPathInjective` | app.py:154 | joining a directory with two relative names gives the same path only for the same name |
| `Session.App.ImagePath` | app.py:154 | the image path lies in the temporary directory and ends with `generated_image_<id>.png` |
| `Session.App.ImagePathInjective` | app.py:154 | distinct sessions write distinct image files |
| `Session.App.ImageNeverOverwritesUpload` | app.py:111-154 | an image path never equals an upload path, since one ends in ".png" and the other in ".pdf" |
| `Session.KeysNeverCollide` | app.py:117-158 | a `pdf_file_` key never equals a `generated_image_` key |
| `Session.KeysInjective` | app.py:117-158 | within one role, equal keys mean equal session ids |
| `Session.JoinPath` | app.py:111 | `os.path.join` ends with its second argument, returns it alone when it is absolute, and otherwise starts with the first |
| `Session.SessionText` | app.py:131-132 | a present session id is used as is in the key; a missing one formats as "None" |
| `Session.Purge` | app.py:226-227 | popping a session's keys removes exactly `pdf_file_<id>` and `generated_image_<id>` and leaves every other entry as it was |
| `Session.CleanupIdempotent` | app.py:208-227 | a second cleanup of the same session finds no paths and removes nothing more |
| `Session.PurgeKeepsOtherSessions` | app.py:226-227 | a cleanup leaves both keys of every other session as they were |
| `Session.App.constructor` | app.py:16 | the application starts with a store holding no image keys, which satisfies the invariant |
| `Session.App.Index` | app.py:92-125 | GET shows the form. A POST is accepted iff it has a file part with a non-empty name ending in ".pdf". On acceptance the file is saved and exactly one `pdf_file_<id>` entry is set, unless saving raises, which fails the request with nothing recorded. On rejection the matching message is flashed and nothing changes |
| `Session.App.ProcessPdf` | app.py:128-165 | redirects with no change when the upload key is missing or its file is gone, when extraction fails, or when generation fails. Only when both succeed is the image written and `generated_image_<id>` set to its path; the redirect to the result view follows when a `session_id` was given, and without one the request ends in "Error processing file" with the image already written and recorded |
| `Session.App.ImageImpliesUpload` | app.py:117-158 | in a valid store, a session with an image key still has its upload key, and the image key names that session's image file |
| `Session.App.ResultView` | app.py:168-187 | shows the stored image bytes with the prompt argument (default "") exactly when the image key names an existing file, and otherwise takes the expired redirect without reading a file |
| `Session.App.Cleanup` | app.py:208-227 | deletes the session's truthy stored paths from disk and pops exactly its two keys |
| `Session.App.Download` | app.py:190-205 | missing image or failed send redirects with no change; a successful send returns the image bytes as `course_image.png` and leaves neither of the session's keys |
| `Session.DownloadThenRetry` | app.py:170-200 | after a successful download, the result view and a second download (whether or not sending would fail) both take the expired redirect, and the state is that of one cleanup |
| `Session.CleanupTwice` | app.py:208-227 | two cleanups of a session leave the same state as one |
| `Session.HappyPath` | app.py:92-205 | for any readable upload, including one with no pages, upload, process, view and download in sequence show and return the generated bytes and leave no key for the session |

## Left out

- PyPDF2 parsing is not part of this model. Its three outcomes (raises, no pages, first-page text) are the `PdfReading` returned by the `parse` argument.
- The Gemini call is not part of this model: the missing API key check, the scan of response parts for inline data and the PIL re-encoding to PNG. Together they are the `generate` argument, which returns None for every failure.
- Flask rendering, `flash`, `redirect`, `url_for`, the base64 encoding for display and the streaming done by `send_file` are framework code. A handler's answer is a `Response` value that carries the flashed message or the bytes shown.
- Directories are not modelled. This covers the creation of the `mkdtemp` directory, the `isdir` branch of `cleanup_files` (stored paths name files) and the leak of the upload directory.
- Session.App.Cleanup: a failed delete is not modelled; every delete of an existing file succeeds, while the source logs and swallows the error.
- Session.App.ProcessPdf: the broad `except` (app.py:162-165) is modelled only for the missing `session_id` case. It also flashes "Error processing file" when opening the upload or writing the image raises; these are I/O failures and are not modelled.
- `time.time()` session ids, and their collision under concurrent uploads, are not modelled; the id is an argument. A repeated id overwrites the earlier `pdf_file_<id>` entry, as `Index`'s contract states.
- Concurrency between requests is not modelled; each method runs alone.
- Separators are the ASCII characters Python's `str.isspace` accepts. Unicode whitespace (for example U+00A0 or U+2028) is not treated as a separator.
- Logging and `print` are left out.
- The `filename` route argument of `process_pdf` is unused by the source and is not a parameter of `ProcessPdf`.
