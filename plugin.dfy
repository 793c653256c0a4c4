/**
  The plugin instance bound to the host: the host's stored configuration object, and the
  requests the plugin issues and the notifications it emits, in order. The uploader walks
  the host's output list in place; the removal handler dispatches one delete per item it
  owns.
*/
module Plugin {
  import opened Wrappers
  import opened Config
  import opened Requests
  import opened Upload
  import opened Remove
  import opened Seqs

  class Plugin {
    /** What the host returns for picBed.nextcloud; null when nothing is stored. */
    const stored: ConfigObject?
    /** Every request issued, in the order issued. */
    var requests: seq<Request>
    /** Every upload notification emitted, in order. */
    var notices: seq<Notice>

    constructor (stored: ConfigObject?)
      ensures this.stored == stored && requests == [] && notices == []
    {
      this.stored := stored;
      requests := [];
      notices := [];
    }

    /** deleteFile up to the point where it hands the request over: it resolves the
        configuration (which throws when nothing is stored, so no request goes out) and
        issues the DELETE. How the request ends is not modelled. */
    method DeleteFile(fileName: string) returns (r: Result<()>)
      modifies this, stored
      ensures stored != null ==> stored.derived == Some(Derive(stored.settings))
      ensures r == if stored == null then Failure(NOT_CONFIGURED) else Success(())
      ensures requests == old(requests) + (if stored == null then [] else [DeleteItem(fileName)])
      ensures notices == old(notices)
    {
      var resolved := GetUserConfig(stored);
      if resolved.Failure? {
        return Failure(resolved.error);
      }
      requests := requests + [DeleteItem(fileName)];
      r := Success(());
    }

    /** The uploader: getUserConfig, outside the try block, then one pass per item of the
        output list, which it changes in place; the network's answer for item i is
        outcomes[i]. It does exactly what Uploaded describes: when nothing is stored it throws
        and touches nothing. */
    method Uploader(output: array<Image>, outcomes: seq<Outcome>) returns (r: Result<()>)
      requires |outcomes| == output.Length
      modifies this, output, stored
      ensures stored != null ==> stored.derived == Some(Derive(stored.settings))
      ensures match Uploaded(StoredSettings(stored), old(output[..]), outcomes)
        case Failure(e) =>
          && r == Failure(e) && output[..] == old(output[..])
          && requests == old(requests) && notices == old(notices)
        case Success(p) =>
          && r == Success(()) && output[..] == p.items
          && requests == old(requests) + p.requests && notices == old(notices) + p.notices
    {
      var resolved := GetUserConfig(stored);
      if resolved.Failure? {
        return Failure(resolved.error);
      }
      UploadBatch(resolved.value, output, outcomes);
      r := Success(());
    }

    /** The uploader's try block under a resolved configuration: the loop over the output
        list, left at the first request that throws, then the catch block's notice. */
    method UploadBatch(cfg: UserConfig, output: array<Image>, outcomes: seq<Outcome>)
      requires |outcomes| == output.Length && stored != null
      requires stored.derived == Some(Derive(stored.settings))
      modifies this, output, stored
      ensures stored.derived == old(stored.derived)
      ensures var p := Batch(cfg, old(output[..]), outcomes);
        && output[..] == p.items
        && requests == old(requests) + p.requests && notices == old(notices) + p.notices
    {
      ghost var items := output[..];
      ghost var requests0, notices0 := requests, notices;
      var failure: Option<string> := None;
      var i := 0;
      while i < output.Length && failure.None?
        invariant 0 <= i <= output.Length
        invariant stored.derived == old(stored.derived)
        invariant failure.None? ==> i <= FirstThrow(outcomes)
        invariant failure.Some? ==> 0 < i == FirstThrow(outcomes) + 1 && failure == Some(outcomes[i - 1].msg)
        invariant output[..] == ItemsAfter(cfg, items, outcomes, i)
        invariant requests == requests0 + RequestsOf(items, outcomes, i)
        invariant notices == notices0 + NoticesOf(outcomes, i)
      {
        Advance(cfg, items, outcomes, i);
        assert output[i] == items[i] by {
          assert output[..][i] == ItemsAfter(cfg, items, outcomes, i)[i];
        }
        failure := UploadOne(cfg, output, i, outcomes[i]);
        AppendAssoc(requests0, RequestsOf(items, outcomes, i), StepRequests(items[i], outcomes[i]));
        AppendAssoc(notices0, NoticesOf(outcomes, i), StepNotices(outcomes[i]));
        i := i + 1;
      }
      LoopExit(cfg, items, outcomes, i, failure);
      if failure.Some? {
        notices := notices + [UploadFailed(FailureBody(failure.value))];
        AppendAssoc(notices0, NoticesOf(outcomes, i), [UploadFailed(FailureBody(failure.value))]);
      }
    }

    /** One pass of the uploader's loop body, for the item at index i: PUT, then the share
        POST, then the payload fields are deleted and, by the share's status code, imgUrl is
        set or the file is deleted again. Returns the message of a request that threw. */
    method UploadOne(cfg: UserConfig, output: array<Image>, i: nat, o: Outcome) returns (failure: Option<string>)
      requires i < output.Length && stored != null
      requires stored.derived == Some(Derive(stored.settings))
      modifies this, output, stored
      ensures stored.derived == old(stored.derived)
      ensures var img := old(output[i]);
        && output[..] == old(output[..])[i := StepImage(cfg, img, o)] && failure == StepFailure(o)
        && requests == old(requests) + StepRequests(img, o) && notices == old(notices) + StepNotices(o)
    {
      var image := output[i];
      requests := requests + [PutItem(image)];
      if o.PutThrows? {
        return Some(o.msg);
      }
      requests := requests + [PostShare(image)];
      AppendAssoc(old(requests), [PutItem(image)], [PostShare(image)]);
      if o.PostThrows? {
        return Some(o.msg);
      }
      output[i] := image.(buffer := None, base64Image := None);
      if o.statuscode == 200 {
        output[i] := output[i].(imgUrl := Some(cfg.derived.directUrl + image.fileName));
        notices := notices + [LinkCopied];
      } else {
        notices := notices + [ShareFailed];
        var _ := DeleteFile(image.fileName);
        AppendAssoc(old(requests), [PutItem(image), PostShare(image)], [DeleteItem(image.fileName)]);
      }
      failure := None;
    }

    /** The removal handler: keeps the items this uploader owns; when there are none it
        returns without reading the configuration; otherwise it calls deleteFile once per
        item, in order, without waiting for any of them. */
    method OnRemove(files: seq<Image>)
      modifies this, stored
      ensures requests == old(requests) + RemoveRequests(StoredSettings(stored), files)
      ensures notices == old(notices)
      ensures Matching(files) == [] && stored != null ==> stored.derived == old(stored.derived)
      ensures Matching(files) != [] && stored != null ==> stored.derived == Some(Derive(stored.settings))
    {
      var rms := Matching(files);
      if |rms| == 0 {
        return;
      }
      var i := 0;
      while i < |rms|
        invariant 0 <= i <= |rms|
        invariant requests == old(requests) + (if stored == null then [] else DeletesOf(rms[..i]))
        invariant notices == old(notices)
        invariant stored != null && i > 0 ==> stored.derived == Some(Derive(stored.settings))
      {
        var _ := DeleteFile(rms[i].fileName);
        assert DeletesOf(rms[..i + 1]) == DeletesOf(rms[..i]) + [DeleteItem(rms[i].fileName)];
        AppendAssoc(old(requests), DeletesOf(rms[..i]), [DeleteItem(rms[i].fileName)]);
        i := i + 1;
      }
      assert rms[..i] == rms;
    }
  }
}
