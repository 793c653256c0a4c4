/**
  The upload batch as functions of the resolved configuration, the items and what the
  network does for each item. The loop handles one item at a time; a PUT or POST that
  throws leaves the loop for the catch block, which ends the whole batch, while a share
  the server rejects is undone by a delete and the loop goes on.
*/
module Upload {
  import opened Wrappers
  import opened Config
  import opened Requests
  import opened Seqs

  /** The notice body for a message that starts with "404" ("the path does not exist,
      check the path setting"). */
  const PATH_NOT_FOUND := "路径不存在，请检查路径设置"

  /** What the network does for one item: the PUT throws, the share POST throws, or the
      POST returns an envelope with this status code. */
  datatype Outcome = PutThrows(msg: string) | PostThrows(msg: string) | Share(statuscode: int)

  predicate Throws(o: Outcome) {
    o.PutThrows? || o.PostThrows?
  }

  /** The notifications of an upload: the link was copied, the share failed, or the upload
      failed with this body. */
  datatype Notice = LinkCopied | ShareFailed | UploadFailed(body: string)

  /** The body the catch block shows for a thrown message. */
  function FailureBody(msg: string): (b: string)
    ensures "404" <= msg ==> b == PATH_NOT_FOUND
    ensures !("404" <= msg) ==> b == msg
  {
    if |msg| >= 3 && msg[..3] == "404" then PATH_NOT_FOUND else msg
  }

  /** The notice an item whose share came back gets. */
  function ShareNotice(statuscode: int): (n: Notice)
    ensures n == LinkCopied <==> statuscode == 200
    ensures n == ShareFailed <==> statuscode != 200
  {
    if statuscode == 200 then LinkCopied else ShareFailed
  }

  /** The item once the loop body has run for it: as it was when a request threw;
      otherwise without its payload fields, and with imgUrl set to directUrl followed by the
      raw file name when the share's status code is 200. */
  function StepImage(cfg: UserConfig, img: Image, o: Outcome): (r: Image)
    ensures Throws(o) ==> r == img
    ensures !Throws(o) ==>
      && r.buffer.None? && r.base64Image.None?
      && r.fileName == img.fileName && r.extname == img.extname && r.tag == img.tag
      && r.imgUrl == (if o.statuscode == 200 then Some(cfg.derived.directUrl + img.fileName) else img.imgUrl)
  {
    if Throws(o) then img
    else
      var stripped := img.(buffer := None, base64Image := None);
      if o.statuscode == 200 then stripped.(imgUrl := Some(cfg.derived.directUrl + img.fileName))
      else stripped
  }

  /** The requests the loop body issues for an item: the PUT; then the share POST unless
      the PUT threw; then a delete of the file when the share came back without 200. */
  function StepRequests(img: Image, o: Outcome): (r: seq<Request>)
    ensures 1 <= |r| <= 3 && r[0] == PutItem(img)
    ensures |r| == 1 <==> o.PutThrows?
    ensures |r| > 1 ==> r[1] == PostShare(img)
    ensures |r| == 3 <==> o.Share? && o.statuscode != 200
    ensures |r| == 3 ==> r[2] == DeleteItem(img.fileName)
  {
    match o
    case PutThrows(_) => [PutItem(img)]
    case PostThrows(_) => [PutItem(img), PostShare(img)]
    case Share(code) =>
      [PutItem(img), PostShare(img)] + (if code == 200 then [] else [DeleteItem(img.fileName)])
  }

  /** The notices the loop body emits for an item: one for a share that came back, none
      when a request threw (the catch block speaks for it). */
  function StepNotices(o: Outcome): (r: seq<Notice>)
    ensures |r| == if Throws(o) then 0 else 1
    ensures !Throws(o) ==> r[0] == ShareNotice(o.statuscode)
  {
    if Throws(o) then [] else [ShareNotice(o.statuscode)]
  }

  /** The message of the request that threw, if one did. */
  function StepFailure(o: Outcome): (r: Option<string>)
    ensures r.Some? <==> Throws(o)
    ensures r.Some? ==> r.value == o.msg
  {
    if Throws(o) then Some(o.msg) else None
  }

  /** The state of the batch: the item list, the requests and notices, and the message of
      the request that threw, if one did. */
  datatype Progress = Progress(items: seq<Image>, requests: seq<Request>, notices: seq<Notice>, failure: Option<string>)

  /** The index of the first item whose request throws, or the number of items. */
  function FirstThrow(outcomes: seq<Outcome>): (t: nat)
    ensures t <= |outcomes|
    ensures forall j {:trigger Throws(outcomes[j])} :: 0 <= j < t ==> !Throws(outcomes[j])
    ensures t < |outcomes| ==> Throws(outcomes[t])
  {
    FirstThrowFrom(outcomes, 0)
  }

  /** The index of the first throwing item at or after i, or the number of items. */
  function FirstThrowFrom(outcomes: seq<Outcome>, i: nat): (t: nat)
    requires i <= |outcomes|
    ensures i <= t <= |outcomes|
    ensures forall j {:trigger Throws(outcomes[j])} :: i <= j < t ==> !Throws(outcomes[j])
    ensures t < |outcomes| ==> Throws(outcomes[t])
    decreases |outcomes| - i
  {
    if i == |outcomes| || Throws(outcomes[i]) then i
    else FirstThrowFrom(outcomes, i + 1)
  }

  /** How many items the loop body runs for: every item up to and including the first whose
      request throws, since the throw leaves the loop. */
  function Processed(outcomes: seq<Outcome>): (m: nat)
    ensures m <= |outcomes|
    ensures FirstThrow(outcomes) < |outcomes| ==> m == FirstThrow(outcomes) + 1
    ensures FirstThrow(outcomes) == |outcomes| ==> m == |outcomes|
  {
    var t := FirstThrow(outcomes);
    if t < |outcomes| then t + 1 else t
  }

  /** The item list once the loop body has run for the first k items: each run replaces
      its item in place. */
  function ItemsAfter(cfg: UserConfig, items: seq<Image>, outcomes: seq<Outcome>, k: nat): (r: seq<Image>)
    requires |outcomes| == |items| && k <= |items|
    ensures |r| == |items|
  {
    if k == 0 then items
    else ItemsAfter(cfg, items, outcomes, k - 1)[k - 1 := StepImage(cfg, items[k - 1], outcomes[k - 1])]
  }

  /** After k runs, each of the first k items is its step's image and the others are as
      they were. */
  lemma {:induction false} ItemsAfterAt(cfg: UserConfig, items: seq<Image>, outcomes: seq<Outcome>, k: nat, j: nat)
    requires |outcomes| == |items| && k <= |items| && j < |items|
    ensures ItemsAfter(cfg, items, outcomes, k)[j] == if j < k then StepImage(cfg, items[j], outcomes[j]) else items[j]
  {
    if k > 0 {
      ItemsAfterAt(cfg, items, outcomes, k - 1, j);
    }
  }

  /** The requests of the loop body's first k runs, in order. */
  function RequestsOf(items: seq<Image>, outcomes: seq<Outcome>, k: nat): (r: seq<Request>)
    requires |outcomes| == |items| && k <= |items|
    ensures k <= |r|
  {
    if k == 0 then []
    else RequestsOf(items, outcomes, k - 1) + StepRequests(items[k - 1], outcomes[k - 1])
  }

  /** The notices of the loop body's first k runs, in order. */
  function NoticesOf(outcomes: seq<Outcome>, k: nat): (r: seq<Notice>)
    requires k <= |outcomes|
    ensures |r| <= k
  {
    if k == 0 then []
    else NoticesOf(outcomes, k - 1) + StepNotices(outcomes[k - 1])
  }

  /** The uploader once getUserConfig has succeeded: the loop body for every item up to the
      first throw, then the catch block's notice if a request threw. */
  function Batch(cfg: UserConfig, items: seq<Image>, outcomes: seq<Outcome>): (p: Progress)
    requires |outcomes| == |items|
    ensures p.failure.Some? <==> FirstThrow(outcomes) < |items|
  {
    var t, m := FirstThrow(outcomes), Processed(outcomes);
    var failure := if t < |items| then Some(outcomes[t].msg) else None;
    Progress(ItemsAfter(cfg, items, outcomes, m), RequestsOf(items, outcomes, m),
             NoticesOf(outcomes, m) + (if t < |items| then [UploadFailed(FailureBody(outcomes[t].msg))] else []),
             failure)
  }

  /** The whole uploader: when nothing is stored getUserConfig throws before the try block,
      so the error propagates and nothing else happens. */
  function Uploaded(stored: Option<Settings>, items: seq<Image>, outcomes: seq<Outcome>): (r: Result<Progress>)
    requires |outcomes| == |items|
    ensures stored.None? ==> r == Failure(NOT_CONFIGURED)
    ensures stored.Some? ==> r == Success(Batch(UserConfig(stored.value, Derive(stored.value)), items, outcomes))
  {
    match Resolve(stored)
    case Failure(e) => Failure(e)
    case Success(cfg) => Success(Batch(cfg, items, outcomes))
  }

  // ---- Properties of the batch ----

  /** One more run of the loop body, at an index no throw came before: it replaces the
      item by its step's image and appends its step's requests and notices, and it is the
      last run exactly when its request throws. */
  lemma Advance(cfg: UserConfig, items: seq<Image>, outcomes: seq<Outcome>, i: nat)
    requires |outcomes| == |items| && i < |items| && i <= FirstThrow(outcomes)
    ensures var img, o := items[i], outcomes[i];
      && ItemsAfter(cfg, items, outcomes, i + 1) == ItemsAfter(cfg, items, outcomes, i)[i := StepImage(cfg, img, o)]
      && RequestsOf(items, outcomes, i + 1) == RequestsOf(items, outcomes, i) + StepRequests(img, o)
      && NoticesOf(outcomes, i + 1) == NoticesOf(outcomes, i) + StepNotices(o)
      && ItemsAfter(cfg, items, outcomes, i)[i] == img
      && (StepFailure(o).None? ==> i + 1 <= FirstThrow(outcomes))
      && (StepFailure(o).Some? ==> i == FirstThrow(outcomes) && StepFailure(o) == Some(o.msg))
  {
    ItemsAfterAt(cfg, items, outcomes, i, i);
    if Throws(outcomes[i]) {
      assert i == FirstThrow(outcomes);
    }
  }

  /** Where the loop ends: at the end of the list with no throw, or just after the first
      item whose request threw. Either way the batch is the state after those runs, plus the
      catch block's notice when a request threw. */
  lemma LoopExit(cfg: UserConfig, items: seq<Image>, outcomes: seq<Outcome>, i: nat, failure: Option<string>)
    requires |outcomes| == |items| && i <= |items|
    requires failure.None? ==> i == |items| && i <= FirstThrow(outcomes)
    requires failure.Some? ==> 0 < i == FirstThrow(outcomes) + 1 && failure == Some(outcomes[i - 1].msg)
    ensures Batch(cfg, items, outcomes) == Progress(ItemsAfter(cfg, items, outcomes, i), RequestsOf(items, outcomes, i),
      NoticesOf(outcomes, i) + (if failure.Some? then [UploadFailed(FailureBody(failure.value))] else []),
      failure)
  {
    assert i == Processed(outcomes);
  }

  /** Before the first throw every run of the loop body emits exactly one notice, the one for
      its share's status code. */
  lemma {:induction false} NoticesBeforeThrow(outcomes: seq<Outcome>, k: nat)
    requires k <= FirstThrow(outcomes)
    ensures var ns := NoticesOf(outcomes, k);
      && |ns| == k
      && forall j :: 0 <= j < k ==> outcomes[j].Share? && ns[j] == ShareNotice(outcomes[j].statuscode)
  {
    if k > 0 {
      NoticesBeforeThrow(outcomes, k - 1);
      assert !Throws(outcomes[k - 1]);
      var ns := NoticesOf(outcomes, k - 1);
      assert NoticesOf(outcomes, k) == ns + [ShareNotice(outcomes[k - 1].statuscode)];
    }
  }

  /** The requests only grow as the loop goes on. */
  lemma {:induction false} RequestsGrow(items: seq<Image>, outcomes: seq<Outcome>, k: nat, m: nat)
    requires |outcomes| == |items| && k <= m <= |items|
    ensures RequestsOf(items, outcomes, k) <= RequestsOf(items, outcomes, m)
  {
    if k < m {
      RequestsGrow(items, outcomes, k, m - 1);
      PrefixAppend(RequestsOf(items, outcomes, k), RequestsOf(items, outcomes, m - 1), StepRequests(items[m - 1], outcomes[m - 1]));
    }
  }

  /** The notices only grow as the loop goes on. */
  lemma {:induction false} NoticesGrow(outcomes: seq<Outcome>, k: nat, m: nat)
    requires k <= m <= |outcomes|
    ensures NoticesOf(outcomes, k) <= NoticesOf(outcomes, m)
  {
    if k < m {
      NoticesGrow(outcomes, k, m - 1);
      PrefixAppend(NoticesOf(outcomes, k), NoticesOf(outcomes, m - 1), StepNotices(outcomes[m - 1]));
    }
  }


  /** Two batches that agree on their first k items and outcomes issue the same requests and
      notices in their first k runs of the loop body. */
  lemma {:induction false} LogsAgree(cfg: UserConfig, items: seq<Image>, outcomes: seq<Outcome>,
                                     items': seq<Image>, outcomes': seq<Outcome>, k: nat)
    requires |outcomes| == |items| && |outcomes'| == |items'|
    requires k <= |items| && k <= |items'|
    requires forall j :: 0 <= j < k ==> items[j] == items'[j] && outcomes[j] == outcomes'[j]
    ensures RequestsOf(items, outcomes, k) == RequestsOf(items', outcomes', k)
    ensures NoticesOf(outcomes, k) == NoticesOf(outcomes', k)
  {
    if k > 0 {
      LogsAgree(cfg, items, outcomes, items', outcomes', k - 1);
      assert items[k - 1] == items'[k - 1] && outcomes[k - 1] == outcomes'[k - 1];
    }
  }

  /** A request that throws ends the batch: that item and every later one are left exactly
      as they were (payload kept, no imgUrl); the item got its PUT (and its POST when the POST
      threw) and nothing after; every earlier item got its one share notice; and the last
      notice is the failure, whose body is the path-not-found text exactly when the message
      starts with "404". */
  lemma UploadAbortsOnThrow(cfg: UserConfig, items: seq<Image>, outcomes: seq<Outcome>)
    requires |outcomes| == |items|
    requires FirstThrow(outcomes) < |items|
    ensures var r, t := Batch(cfg, items, outcomes), FirstThrow(outcomes);
      && (forall j :: t <= j < |items| ==> r.items[j] == items[j])
      && r.requests == RequestsOf(items, outcomes, t) + [PutItem(items[t])]
           + (if outcomes[t].PostThrows? then [PostShare(items[t])] else [])
      && r.notices == NoticesOf(outcomes, t) + [UploadFailed(FailureBody(outcomes[t].msg))]
      && |r.notices| == t + 1
      && r.failure == Some(outcomes[t].msg)
  {
    var t, r := FirstThrow(outcomes), Batch(cfg, items, outcomes);
    assert StepImage(cfg, items[t], outcomes[t]) == items[t] && StepNotices(outcomes[t]) == [];
    forall j | t <= j < |items|
      ensures r.items[j] == items[j]
    {
      ItemsAfterAt(cfg, items, outcomes, t + 1, j);
    }
    assert r.requests == RequestsOf(items, outcomes, t) + StepRequests(items[t], outcomes[t]);
    assert r.notices == NoticesOf(outcomes, t) + [UploadFailed(FailureBody(outcomes[t].msg))];
    NoticesBeforeThrow(outcomes, t);
  }

  /** Nothing the batch does depends on the items after the one that threw: replacing them,
      or their outcomes, changes neither the requests, nor the notices, nor the items up to
      the one that threw. */
  lemma UploadIgnoresLaterItems(cfg: UserConfig, items: seq<Image>, outcomes: seq<Outcome>,
                                items': seq<Image>, outcomes': seq<Outcome>)
    requires |outcomes| == |items| && |outcomes'| == |items'|
    requires FirstThrow(outcomes) < |items| && FirstThrow(outcomes) < |items'|
    requires var t := FirstThrow(outcomes);
      items[..t + 1] == items'[..t + 1] && outcomes[..t + 1] == outcomes'[..t + 1]
    ensures var r, r' := Batch(cfg, items, outcomes), Batch(cfg, items', outcomes');
      var t := FirstThrow(outcomes);
      && r.requests == r'.requests
      && r.notices == r'.notices
      && r.items[..t + 1] == r'.items[..t + 1]
  {
    var t := FirstThrow(outcomes);
    forall j | 0 <= j <= t
      ensures items[j] == items'[j] && outcomes[j] == outcomes'[j]
    {
      assert items[j] == items[..t + 1][j] && items'[j] == items'[..t + 1][j];
      assert outcomes[j] == outcomes[..t + 1][j] && outcomes'[j] == outcomes'[..t + 1][j];
    }
    assert FirstThrow(outcomes') == t;
    LogsAgree(cfg, items, outcomes, items', outcomes', t + 1);
    forall j | 0 <= j <= t
      ensures Batch(cfg, items, outcomes).items[j] == Batch(cfg, items', outcomes').items[j]
    {
      ItemsAfterAt(cfg, items, outcomes, t + 1, j);
      ItemsAfterAt(cfg, items', outcomes', t + 1, j);
    }
  }

  /** An item whose share came back, with no throw before it, loses its payload fields
      whatever the status code; its imgUrl becomes directUrl followed by the raw file name
      when the code is 200 and is left as it was otherwise; nothing else about it changes. */
  lemma UploadSharedItem(cfg: UserConfig, items: seq<Image>, outcomes: seq<Outcome>, j: nat)
    requires |outcomes| == |items|
    requires j < FirstThrow(outcomes)
    ensures outcomes[j].Share?
    ensures var r, img, code := Batch(cfg, items, outcomes).items[j], items[j], outcomes[j].statuscode;
      && r.buffer.None? && r.base64Image.None?
      && r.fileName == img.fileName && r.extname == img.extname && r.tag == img.tag
      && r.imgUrl == (if code == 200 then Some(cfg.derived.directUrl + img.fileName) else img.imgUrl)
  {
    assert !Throws(outcomes[j]);
    ItemsAfterAt(cfg, items, outcomes, Processed(outcomes), j);
  }

  /** After m runs of the loop body, the requests of run j sit right after those of the
      runs before it. */
  lemma RunRequestsPlaced(items: seq<Image>, outcomes: seq<Outcome>, j: nat, m: nat)
    requires |outcomes| == |items| && j < m <= |items|
    ensures var rs, p, step := RequestsOf(items, outcomes, m), |RequestsOf(items, outcomes, j)|, StepRequests(items[j], outcomes[j]);
      && p + |step| <= |rs|
      && (forall k :: 0 <= k < |step| ==> rs[p + k] == step[k])
  {
    var rs, before, step := RequestsOf(items, outcomes, m), RequestsOf(items, outcomes, j), StepRequests(items[j], outcomes[j]);
    var upTo := RequestsOf(items, outcomes, j + 1);
    assert upTo == before + step;
    RequestsGrow(items, outcomes, j + 1, m);
    forall k | 0 <= k < |step|
      ensures rs[|before| + k] == step[k]
    {
      assert rs[|before| + k] == upTo[|before| + k];
    }
  }

  /** After m runs of the loop body, the requests of run j are followed by the PUT of item
      j + 1 when that item has run too, and end the log when it has not. */
  lemma RunRequestsFollowed(items: seq<Image>, outcomes: seq<Outcome>, j: nat, m: nat)
    requires |outcomes| == |items| && j < m <= |items|
    ensures var rs, q := RequestsOf(items, outcomes, m), |RequestsOf(items, outcomes, j + 1)|;
      && (j + 1 < m ==> q < |rs| && rs[q] == PutItem(items[j + 1]))
      && (j + 1 == m ==> q == |rs|)
  {
    if j + 1 < m {
      var upTo := RequestsOf(items, outcomes, j + 1);
      var after := RequestsOf(items, outcomes, j + 2);
      assert after == upTo + StepRequests(items[j + 1], outcomes[j + 1]);
      RequestsGrow(items, outcomes, j + 2, m);
      assert RequestsOf(items, outcomes, m)[|upTo|] == after[|upTo|];
    }
  }

  /** After m runs, the requests of a run j whose share came back: its PUT and POST, a
      delete when the status code is not 200, then the next run's PUT or the end of the log. */
  lemma SharedRunRequests(items: seq<Image>, outcomes: seq<Outcome>, j: nat, m: nat)
    requires |outcomes| == |items| && j < m <= |items| && outcomes[j].Share?
    ensures var img, code := items[j], outcomes[j].statuscode;
      var rs, p := RequestsOf(items, outcomes, m), |RequestsOf(items, outcomes, j)|;
      var next := p + (if code == 200 then 2 else 3);
      && next <= |rs| && rs[p] == PutItem(img) && rs[p + 1] == PostShare(img)
      && (code != 200 ==> rs[p + 2] == DeleteItem(img.fileName))
      && (next == |rs| || (j + 1 < m && rs[next] == PutItem(items[j + 1])))
  {
    RunRequestsPlaced(items, outcomes, j, m);
    RunRequestsFollowed(items, outcomes, j, m);
    var step := StepRequests(items[j], outcomes[j]);
    var p := |RequestsOf(items, outcomes, j)|;
    assert |RequestsOf(items, outcomes, j + 1)| == p + |step|;
    var rs := RequestsOf(items, outcomes, m);
    assert rs[p] == step[0] && rs[p + 1] == step[1];
    if outcomes[j].statuscode == 200 {
      assert |step| == 2;
    } else {
      assert |step| == 3 && rs[p + 2] == step[2];
    }
  }

  /** An item whose share came back, with no throw before it, gets its PUT and its share
      POST right after the requests of the items before it, then a delete of the same file
      exactly when the status code is not 200, and nothing more: the next request, if any,
      is the next item's PUT. */
  lemma UploadSharedRequests(cfg: UserConfig, items: seq<Image>, outcomes: seq<Outcome>, j: nat)
    requires |outcomes| == |items|
    requires j < FirstThrow(outcomes)
    ensures outcomes[j].Share?
    ensures var img, code := items[j], outcomes[j].statuscode;
      var rs, p := Batch(cfg, items, outcomes).requests, |RequestsOf(items, outcomes, j)|;
      var next := p + (if code == 200 then 2 else 3);
      && next <= |rs| && rs[p] == PutItem(img) && rs[p + 1] == PostShare(img)
      && (code != 200 ==> rs[p + 2] == DeleteItem(img.fileName))
      && (j + 1 < |items| ==> next < |rs| && rs[next] == PutItem(items[j + 1]))
      && (j + 1 == |items| ==> next == |rs|)
  {
    assert !Throws(outcomes[j]);
    var m := Processed(outcomes);
    assert j + 1 < |items| ==> j + 1 < m;
    assert Batch(cfg, items, outcomes).requests == RequestsOf(items, outcomes, m);
    SharedRunRequests(items, outcomes, j, m);
    RunRequestsFollowed(items, outcomes, j, m);
    assert |RequestsOf(items, outcomes, j + 1)| == |RequestsOf(items, outcomes, j)| + |StepRequests(items[j], outcomes[j])|;
  }

  /** The j-th notice of the batch belongs to the j-th item, when no item up to it threw:
      the link-copied notice for status code 200 and the share-failed notice otherwise. */
  lemma UploadSharedNotice(cfg: UserConfig, items: seq<Image>, outcomes: seq<Outcome>, j: nat)
    requires |outcomes| == |items|
    requires j < FirstThrow(outcomes)
    ensures outcomes[j].Share?
    ensures var r := Batch(cfg, items, outcomes);
      j < |r.notices| && r.notices[j] == ShareNotice(outcomes[j].statuscode)
  {
    assert !Throws(outcomes[j]);
    var ns := NoticesOf(outcomes, j + 1);
    NoticesGrow(outcomes, j + 1, Processed(outcomes));
    NoticesBeforeThrow(outcomes, j + 1);
    assert ns <= Batch(cfg, items, outcomes).notices;
  }

  /** A batch in which nothing throws gets through every item: no failure, one notice per
      item and no payload left on any item. */
  lemma UploadCompletes(cfg: UserConfig, items: seq<Image>, outcomes: seq<Outcome>)
    requires |outcomes| == |items|
    requires forall j :: 0 <= j < |outcomes| ==> !Throws(outcomes[j])
    ensures var r := Batch(cfg, items, outcomes);
      && r.failure.None?
      && |r.notices| == |items|
      && forall j :: 0 <= j < |items| ==> r.items[j].buffer.None? && r.items[j].base64Image.None?
  {
    assert FirstThrow(outcomes) == |items|;
    NoticesBeforeThrow(outcomes, |items|);
    forall j | 0 <= j < |items|
      ensures Batch(cfg, items, outcomes).items[j] == StepImage(cfg, items[j], outcomes[j])
    {
      ItemsAfterAt(cfg, items, outcomes, |items|, j);
    }
  }
}
