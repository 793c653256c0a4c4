# NextCloud uploader plugin, modelled in Dafny

The plugin uploads the images an image-upload manager hands it to a NextCloud server and
shares each one by public link. This model covers the plugin's core, `src/index_v2.js`:

- `getUserConfig`: resolves the stored `picBed.nextcloud` settings into `directUrl`, `baseUrl`,
  `shareUrl` and the auth record. It throws when nothing is stored.
- `getPubHeaders`, `getAuth` and the MIME table.
- The strings the requests are built from:
  - the WebDAV file URL;
  - the share path;
  - the `Content-Disposition` header;
  - JavaScript's `encodeURI`, modelled after ECMA-262 with a percent-decoder as its partner.
- The uploader loop. For each item of the output list it issues:
  - a PUT;
  - then a share POST;
  - then it drops the payload fields;
  - then it either sets `imgUrl` or deletes the file again.

  A PUT or POST that throws ends the whole batch with one failure notification.
- `deleteFile` and the `onRemove` handler. The handler filters the removed items by type tag
  and dispatches one delete per item it owns.

Layout:

- `wrappers.dfy`: `Option` and `Result`.
- `seqs.dfy`: a few facts about concatenation.
- `uri.dfy`: `encodeURI`, and the decoder that undoes it.
- `config.dfy`:
  - `getUserConfig`, on values (`Resolve`) and on the host's stored object (`GetUserConfig`);
  - `getAuth`.
- `requests.dfy`:
  - the item record;
  - the MIME table;
  - the payload choice;
  - the requests, given symbolically (`Request`) and in their wire form (`ToWire`).
- `upload.dfy`: the upload batch as functions of the resolved configuration, the items and
  an *outcome* per item, together with its properties.
  - The outcome is what the network does for that item: the PUT throws, the POST throws, or
    the share envelope comes back with a status code.
  - `Batch` is the closed form of the loop.
  - `ItemsAfter`, `RequestsOf` and `NoticesOf` give the state after the first k runs of the
    loop body.
- `remove.dfy`: the `onRemove` filter and its deletes, on values.
- `plugin.dfy`: the plugin instance as a class. It holds:
  - the host's stored configuration object;
  - the log of requests issued;
  - the log of upload notifications emitted.

  The uploader runs a loop over the host's `output` array and changes the items in place. It
  is proved equal to `Batch`.

## Model

| member | source | states |
|---|---|---|
| Uri.EncodeUri | src/index_v2.js:56-57 | encodeURI never shortens a string (each character becomes itself or a run of escapes) |
| Uri.EncodeUriSafe | src/index_v2.js:56-57 | every character encodeURI produces is in its unescaped set or is the '%' of an escape. So an encoded path or name holds no space, quotation mark, backslash or control character, though the reserved characters `; / ? : @ & = + $ , #` pass through unchanged |
| Uri.Utf8RoundTrip | src/index_v2.js:131 | the UTF-8 bytes encodeURI escapes for a character announce their own length and decode back to that character |
| Uri.DecodeEncode | src/index_v2.js:56-57 | percent-decoding encodeURI's output gives the input back: the path and file names are encoded exactly once and without loss |
| Uri.EncodeUriAppend | src/index_v2.js:131 | encodeURI works character by character: encoding a concatenation is concatenating the encodings |
| Uri.EncodeUriIdentity | src/index_v2.js:134 | encodeURI leaves a name unchanged exactly when every character of it is in the unescaped set |
| Config.GetAuth | src/index_v2.js:34-40 | the auth record carries the given user and password and asks for credentials to be sent immediately |
| Config.Derive | src/index_v2.js:56-59 | directUrl ends with '/', baseUrl lies under the user's WebDAV root, shareUrl is the host followed by the share API, and auth is getAuth of the stored user and password |
| Config.Resolve | src/index_v2.js:43-62 | getUserConfig fails exactly when nothing is stored, with the configure-first message. Otherwise it returns the stored settings with exactly the derived fields Derive computes, and an auth record holding the stored user and password that asks for immediate sending |
| Config.DerivedUrls | src/index_v2.js:50-58 | directUrl is cdn/user + encoded path + "/", baseUrl is the user's WebDAV root + encoded path, shareUrl is the host + the share API; decoding the path part of directUrl and baseUrl gives the stored path back |
| Config.ShareUrlDependsOnHostOnly | src/index_v2.js:58 | two settings with the same host get the same shareUrl, whatever their user and path |
| Config.GetUserConfig | src/index_v2.js:43-62 | the method returns what Resolve describes and writes the derived URLs and auth into the stored object |
| Requests.PubHeaders | src/index_v2.js:26-32 | the common headers are exactly OCS-APIREQUEST: true, User-Agent: PicGo and Accept: application/json, whatever the arguments |
| Requests.MimeTable | src/index_v2.js:15-24 | the table lists exactly the eight extensions, each with a type that is neither empty nor octet-stream; .jpeg and .jpg share image/jpeg |
| Requests.ContentType | src/index_v2.js:129 | a listed extension gets its MIME type from the table and any other gets application/octet-stream (the `||` fallback, which never replaces a listed type because none is empty) |
| Requests.ContentTypeDefaultIffUnlisted | src/index_v2.js:15-24 | the octet-stream default is given exactly to the extensions the table does not list, and the lookup is case-sensitive |
| Requests.Payload | src/index_v2.js:124-127 | a present buffer is sent as it is; with no buffer, a non-empty base64Image is sent base64-decoded; with neither, no body is sent |
| Requests.PayloadPrefersBuffer | src/index_v2.js:124-127 | when an item has a buffer, its base64Image has no effect on what is uploaded |
| Requests.PutUrl | src/index_v2.js:131 | the PUT URL is baseUrl and a slash followed by text that decodes back to the file name |
| Requests.DeleteUrl | src/index_v2.js:70 | deleteFile removes the very URL the PUT wrote |
| Requests.SharePath | src/index_v2.js:142 | the share path is the unencoded directory, a slash and the name; encoding it gives the encoded directory, a slash and the encoded name |
| Requests.ContentDisposition | src/index_v2.js:134 | the header value is `attachment; filename="` followed by the encoded name and a closing quote |
| Requests.PutHeaders | src/index_v2.js:132-136 | the PUT's headers are the three common ones, unchanged, plus exactly Content-Disposition and the given Content-Type |
| Requests.ToWire | src/index_v2.js:64-74 | every request carries the common headers. Only the PUT (lines 128-140) adds headers and sends the item's payload to the file URL. Only the POST (lines 141-149) goes to shareUrl, with the unencoded path as a public-link share (type 3). Only the DELETE carries the auth record, has no body and switches certificate checks off; the PUT and POST ask for TLS 1.2 or later |
| Requests.FileUrlIsSharePath | src/index_v2.js:131-142 | as strings, the PUT and DELETE URLs coincide and are the WebDAV root followed by the encoded share path, and decoding that part gives back the path the share request names |
| Requests.DelimiterReachesUrl | src/index_v2.js:131 | a '#' or '?' in the file name reaches the PUT URL unescaped, so the part after it is read as a fragment or query rather than as part of the file's path |
| Requests.ContentDispositionQuoted | src/index_v2.js:134 | the filename in Content-Disposition is a well-formed quoted string: every character of it is unescaped by encodeURI or a '%', so it holds no quotation mark, backslash or control character, and it decodes back to the file name |
| Upload.FailureBody | src/index_v2.js:169-181 | a message starting with "404" is reported as path-not-found, and any other message is reported as it is |
| Upload.ShareNotice | src/index_v2.js:154-165 | a share status of 200 gives the link-copied notice and any other status gives the share-failed notice |
| Upload.StepImage | src/index_v2.js:150-155 | a run whose request threw leaves its item as it was; otherwise the item loses buffer and base64Image, gets imgUrl directUrl + raw file name on status 200, keeps its imgUrl otherwise, and keeps every other field |
| Upload.StepRequests | src/index_v2.js:131-166 | a run issues its PUT first; just the PUT when the PUT throws; otherwise the share POST next; and a third request, the delete of the file, exactly when the share came back without 200 |
| Upload.StepNotices | src/index_v2.js:154-165 | a run emits one notice, its share's, when no request threw, and none otherwise |
| Upload.StepFailure | src/index_v2.js:131-149 | a run reports a failure exactly when its PUT or POST threw, and the failure is the thrown message |
| Upload.FirstThrow | src/index_v2.js:122-169 | the index where the loop is left: no earlier item's request throws, and the item at that index (if any) does throw |
| Upload.Processed | src/index_v2.js:122-169 | the loop body runs for every item up to and including the first one that throws, or for all items when none throws |
| Upload.ItemsAfterAt | src/index_v2.js:122-167 | after k runs each of the first k items has been replaced by its run's result and the rest are untouched |
| Upload.Batch | src/index_v2.js:117-182 | the batch ends with a failure exactly when some item's request throws |
| Upload.Uploaded | src/index_v2.js:114-117 | with nothing stored the uploader throws the configure-first error before the try block; otherwise the result is the batch under the settings and the fields getUserConfig derives from them |
| Upload.Advance | src/index_v2.js:122-167 | one more run replaces the item in place, appends its requests and notices, and is the last run exactly when its request throws |
| Upload.LoopExit | src/index_v2.js:122-181 | wherever the loop stops (the end of the list, or just after the first throw), the batch is the state after those runs plus the catch block's notice when a request threw |
| Upload.NoticesBeforeThrow | src/index_v2.js:154-165 | before the first throw, every run emits exactly one notice, the one for its share's status code |
| Upload.RequestsGrow | src/index_v2.js:122-167 | the request log only grows as the loop goes on |
| Upload.NoticesGrow | src/index_v2.js:122-167 | the notification log only grows as the loop goes on |
| Upload.LogsAgree | src/index_v2.js:122-167 | two batches that agree on their first k items and outcomes issue the same requests and notices in their first k runs |
| Upload.UploadAbortsOnThrow | src/index_v2.js:131-181 | a throw ends the batch: that item and every later item are left as they were. The throwing item gets its PUT (and its POST when the POST threw) and nothing after. Every earlier item has its notice, and the failure notice comes last |
| Upload.UploadIgnoresLaterItems | src/index_v2.js:122-169 | items and outcomes after the one that threw change neither the requests, nor the notices, nor the items up to that one |
| Upload.UploadSharedItem | src/index_v2.js:151-155 | an item whose share came back loses buffer and base64Image. Its imgUrl becomes directUrl + the raw file name when the status is 200 and is kept otherwise. Nothing else about it changes |
| Upload.RunRequestsPlaced | src/index_v2.js:122-167 | after any number of runs, the requests of run j sit right after those of the runs before it |
| Upload.RunRequestsFollowed | src/index_v2.js:122-167 | the requests of run j are followed by the next item's PUT when that item has run, and end the log otherwise |
| Upload.SharedRunRequests | src/index_v2.js:131-166 | after any number of runs, a run whose share came back has exactly its PUT, its POST and, when the status is not 200, a delete of its file, and then the next run's PUT or the end of the log |
| Upload.UploadSharedRequests | src/index_v2.js:131-166 | an item whose share came back gets its PUT and its POST right after the earlier items' requests, then a delete of the same file exactly when the status is not 200, and nothing more: when another item follows, its PUT comes next, so the batch goes on; otherwise the log ends. So status 200 issues no delete |
| Upload.UploadSharedNotice | src/index_v2.js:154-165 | the j-th notice belongs to the j-th item when no item up to it threw |
| Upload.UploadCompletes | src/index_v2.js:122-168 | when nothing throws: no failure, one notice per item, and no item keeps a payload field |
| Remove.Matching | src/index_v2.js:88 | the filter keeps exactly the removed items whose type is this uploader's name |
| Remove.DeletesOf | src/index_v2.js:93-100 | one delete per kept item, in order, for that item's file name |
| Remove.MatchingAppend | src/index_v2.js:88 | the filter keeps order: filtering a concatenation concatenates the filtered parts |
| Remove.MatchingIdempotent | src/index_v2.js:88 | filtering twice is filtering once |
| Remove.RemoveRequests | src/index_v2.js:87-100 | onRemove issues one delete per matching item, in order, by file name, when settings are stored, and none otherwise |
| Remove.RemoveAppend | src/index_v2.js:87-100 | one more removed item adds a delete of its file exactly when it is this uploader's and settings are stored; an item of another uploader changes nothing |
| Remove.RemoveOnlyMatching | src/index_v2.js:87-100 | only this uploader's items matter, and with settings stored each of them gets exactly one delete |
| Plugin.Plugin.DeleteFile | src/index_v2.js:64-85 | deleteFile throws before any request when nothing is stored; otherwise it writes the derived fields and issues one DELETE of the file |
| Plugin.Plugin.Uploader | src/index_v2.js:114-183 | the uploader changes the output list, the request log and the notification log exactly as Uploaded describes, and touches nothing when it throws |
| Plugin.Plugin.UploadBatch | src/index_v2.js:117-182 | the try block's loop over the output array leaves the items, requests and notices Batch describes |
| Plugin.Plugin.UploadOne | src/index_v2.js:122-167 | one pass of the loop body changes only its own item, appends its requests and notices, and reports a thrown message |
| Plugin.Plugin.OnRemove | src/index_v2.js:87-100 | the removal handler issues exactly the deletes RemoveRequests describes and does not read the configuration when no item matches |

## Left out

- HTTP and TLS transport: no request is really sent. The network's answer to each item's PUT and POST is a parameter (one `Outcome` per item). The TLS options are recorded only as a tag on the wire form.
- A share response without `data.ocs`: reading `body.meta.statuscode` would then throw, after the payload fields are already deleted. The model assumes the envelope is well formed.
- `axios.defaults.auth` (lines 118-120) is left out. The PUT and POST are recorded with no credentials of their own.
- deleteFile's own result and its failure notification (lines 79-84) are not modelled. The same holds for the uploader not awaiting `deleteFile` (line 166). A delete is modelled from the moment it is issued.
- The retry queue in `onRemove` (lines 92-106) is left out, because it depends on when deleteFile's promises settle. The push at line 98 runs only when deleteFile's promise rejects, which happens when getUserConfig throws because nothing is stored; request errors are caught inside deleteFile (lines 79-84). The check and save (lines 102-106) run before any such callback, so as written they never save anything.
- `Buffer.from(..., 'base64')` is kept symbolic: the payload records the text to decode.
- Notification titles and `ctx.log` are not modelled. Only the kind and body of the upload notices are.
- `register` and the configuration schema (lines 5-13 and 184-231) belong to the host and are left out.
- Uri.EncodeUri: a Dafny string cannot hold a lone surrogate, so the `URIError` case of encodeURI cannot occur and is not modelled.
- Plugin.Plugin.UploadBatch: the model visits the array's indices in order; `for..in` would also visit other enumerable properties, including inherited ones, and those and holes are not modelled.
- Requests.ContentType: keys inherited by JavaScript objects (such as `constructor`) are not in the table here.
- Config.Resolve: a stored object whose fields are missing would render them as the text "undefined". The model's settings always have every field.
- Config.Resolve: a stored value that is falsy but not absent (such as an empty string) is treated as absent, since `Option` has only `None` for it.
- Requests.FileUrlIsSharePath holds for the URL strings only. encodeURI leaves `#` and `?` unescaped, so a file name or path that holds one makes an HTTP client cut the URL there: the PUT and DELETE then reach a different path from the one the share request names. How a URL is split into path, query and fragment is not modelled; `Requests.DelimiterReachesUrl` shows the delimiter reaching the URL.
- Plugin.Plugin.UploadBatch: the items of the output list are values in an array. The source mutates the item objects themselves (lines 151-155), so an object held at two positions of the list loses its payload at both. The model changes only the position being processed, so it does not capture that aliasing.
