/**
  The removal handler on values: which of the removed items this uploader owns, and the
  deletes it dispatches for them.
*/
module Remove {
  import opened Wrappers
  import opened Config
  import opened Requests

  /** The removed items this uploader owns, in their order: those whose type tag is the
      uploader's name. */
  function Matching(files: seq<Image>): (r: seq<Image>)
    ensures |r| <= |files|
    ensures forall x :: x in r <==> x in files && x.tag == UPLOADER_NAME
  {
    if files == [] then []
    else if files[0].tag == UPLOADER_NAME then [files[0]] + Matching(files[1..])
    else Matching(files[1..])
  }

  /** One delete per item, in order. */
  function DeletesOf(rms: seq<Image>): (r: seq<Request>)
    ensures |r| == |rms|
    ensures forall k :: 0 <= k < |rms| ==> r[k] == DeleteItem(rms[k].fileName)
  {
    seq(|rms|, k requires 0 <= k < |rms| => DeleteItem(rms[k].fileName))
  }

  /** The requests onRemove issues: none when no item matches; none when nothing is stored,
      since every deleteFile then throws before its request; otherwise one delete per
      matching item. */
  function RemoveRequests(stored: Option<Settings>, files: seq<Image>): (r: seq<Request>)
    ensures |r| == if stored.None? then 0 else |Matching(files)|
    ensures forall k :: 0 <= k < |r| ==> r[k] == DeleteItem(Matching(files)[k].fileName)
  {
    var rms := Matching(files);
    if rms == [] || stored.None? then [] else DeletesOf(rms)
  }

  /** The filter keeps order: filtering a concatenation is concatenating the filtered parts. */
  lemma {:induction false} MatchingAppend(a: seq<Image>, b: seq<Image>)
    ensures Matching(a + b) == Matching(a) + Matching(b)
  {
    if a == [] {
      assert a + b == b;
    } else {
      assert (a + b)[0] == a[0] && (a + b)[1..] == a[1..] + b;
      MatchingAppend(a[1..], b);
    }
  }

  /** Removing one more item adds a delete of its file name exactly when the item is this
      uploader's and a configuration is stored; an item of another uploader changes nothing. */
  lemma RemoveAppend(stored: Option<Settings>, files: seq<Image>, x: Image)
    ensures RemoveRequests(stored, files + [x]) ==
      RemoveRequests(stored, files) + (if x.tag == UPLOADER_NAME && stored.Some? then [DeleteItem(x.fileName)] else [])
  {
    MatchingAppend(files, [x]);
    assert Matching([x]) == if x.tag == UPLOADER_NAME then [x] else [] by {
      assert [x][1..] == [];
    }
    var rms := Matching(files);
    if x.tag == UPLOADER_NAME && stored.Some? {
      assert DeletesOf(rms + [x]) == DeletesOf(rms) + [DeleteItem(x.fileName)];
    }
  }

  /** Only this uploader's items matter: removing the batch or just its matching part
      issues the same deletes, and when a configuration is stored every matching item gets
      exactly one delete. */
  lemma RemoveOnlyMatching(stored: Option<Settings>, files: seq<Image>)
    ensures RemoveRequests(stored, Matching(files)) == RemoveRequests(stored, files)
    ensures stored.Some? ==> |RemoveRequests(stored, files)| == |Matching(files)|
  {
    MatchingIdempotent(files);
  }

  lemma {:induction false} MatchingIdempotent(files: seq<Image>)
    ensures Matching(Matching(files)) == Matching(files)
  {
    if files != [] {
      MatchingIdempotent(files[1..]);
      if files[0].tag == UPLOADER_NAME {
        var m := Matching(files);
        assert m[0] == files[0] && m[1..] == Matching(files[1..]);
      }
    }
  }
}
