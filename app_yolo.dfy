/**
 * The detection session of the `YoloDetection` component in app.js. Each
 * method assigns the component's data fields; revoking a `blob:` URL adds
 * it to the ghost set `revoked`, and `held` records every handle the
 * component has owned through `objectUrl`.
 */
module AppYoloDetection {
  import opened Opt
  import opened Detection

  class YoloDetection {
    var loading: bool
    var detectionResult: Option<DetectionResult>
    var screenshotImage: Option<Url>
    var screenshotBlob: Option<Blob>
    var originalImage: Option<Url>
    var objectUrl: Option<Url>
    ghost var held: set<Url>
    ghost var revoked: set<Url>

    /** Every handle the component has owned is revoked, except the one it still holds. */
    ghost predicate NoLeak()
      reads this
    {
      && Handles(objectUrl) <= held
      && forall u | u in held && u !in revoked :: objectUrl == Some(u)
    }

    function Phase(): (ph: SessionPhase)
      reads this
    {
      PhaseOf(loading, detectionResult, screenshotImage)
    }

    /** `data()`: nothing held, not loading. */
    constructor ()
      ensures NoLeak() && Phase() == Idle
      ensures !loading && detectionResult.None? && screenshotImage.None? && screenshotBlob.None?
      ensures originalImage.None? && objectUrl.None? && held == {} && revoked == {}
    {
      loading := false;
      detectionResult := None;
      screenshotImage := None;
      screenshotBlob := None;
      originalImage := None;
      objectUrl := None;
      held := {};
      revoked := {};
    }

    /**
     * `handleScreenshot`: revokes the previous handle, takes ownership of the
     * event's image URL, shows it as both preview and original, and drops any
     * earlier result.
     */
    method HandleScreenshot(imageUrl: Option<Url>, blob: Option<Blob>)
      requires NoLeak()
      modifies this
      ensures NoLeak()
      ensures revoked == old(revoked) + Handles(old(objectUrl))
      ensures held == old(held) + Handles(imageUrl)
      ensures objectUrl == imageUrl && screenshotImage == imageUrl && originalImage == imageUrl
      ensures screenshotBlob == blob && detectionResult.None? && loading == old(loading)
      ensures !loading && imageUrl.Some? ==> Phase() == PreviewPending
    {
      if objectUrl.Some? {
        revoked := revoked + {objectUrl.value};
      }
      objectUrl := imageUrl;
      held := held + Handles(imageUrl);
      screenshotImage := imageUrl;
      screenshotBlob := blob;
      originalImage := imageUrl;
      detectionResult := None;
    }

    /**
     * `detectObjects` up to the request: without both a blob and a preview it
     * returns at once and changes nothing; otherwise it sets `loading`, keeps
     * the preview as the original image and sends the blob.
     */
    method DetectObjectsStart() returns (request: Option<Blob>)
      requires NoLeak()
      modifies this
      ensures NoLeak()
      ensures request.Some? <==> old(screenshotBlob).Some? && old(screenshotImage).Some?
      ensures request.None? ==>
        loading == old(loading) && originalImage == old(originalImage)
      ensures request.Some? ==>
        request == old(screenshotBlob) && loading && originalImage == old(screenshotImage) && Phase() == Detecting
      ensures detectionResult == old(detectionResult) && screenshotImage == old(screenshotImage)
      ensures screenshotBlob == old(screenshotBlob) && objectUrl == old(objectUrl)
      ensures held == old(held) && revoked == old(revoked)
    {
      if screenshotBlob.None? || screenshotImage.None? {
        return None;
      }
      loading := true;
      originalImage := screenshotImage;
      request := screenshotBlob;
    }

    /**
     * `detectObjects` after the request: `response` is the parsed result, or
     * `None` when the request failed or was not ok. Success stores the result
     * and drops the preview; failure keeps everything; `loading` ends false.
     */
    method DetectObjectsFinish(response: Option<DetectionResult>)
      requires NoLeak()
      modifies this
      ensures NoLeak()
      ensures !loading
      ensures response.Some? ==>
        detectionResult == response && screenshotImage.None? && screenshotBlob.None? && Phase() == ResultReady
      ensures response.None? ==>
        detectionResult == old(detectionResult) && screenshotImage == old(screenshotImage) &&
        screenshotBlob == old(screenshotBlob)
      ensures originalImage == old(originalImage) && objectUrl == old(objectUrl)
      ensures held == old(held) && revoked == old(revoked)
    {
      if response.Some? {
        detectionResult := response;
        screenshotImage := None;
        screenshotBlob := None;
      }
      loading := false;
    }

    /** `clearScreenshot`: drops the preview and original image and revokes the held handle. */
    method ClearScreenshot()
      requires NoLeak()
      modifies this
      ensures NoLeak() && held <= revoked
      ensures screenshotImage.None? && screenshotBlob.None? && originalImage.None? && objectUrl.None?
      ensures revoked == old(revoked) + Handles(old(objectUrl)) && held == old(held)
      ensures detectionResult == old(detectionResult) && loading == old(loading)
    {
      screenshotImage := None;
      screenshotBlob := None;
      originalImage := None;
      if objectUrl.Some? {
        revoked := revoked + {objectUrl.value};
        objectUrl := None;
      }
    }

    /** `clearResults`: drops the result and the original image and revokes the held handle. */
    method ClearResults()
      requires NoLeak()
      modifies this
      ensures NoLeak() && held <= revoked
      ensures detectionResult.None? && originalImage.None? && objectUrl.None?
      ensures revoked == old(revoked) + Handles(old(objectUrl)) && held == old(held)
      ensures screenshotImage == old(screenshotImage) && screenshotBlob == old(screenshotBlob)
      ensures loading == old(loading)
      ensures !loading && screenshotImage.None? ==> Phase() == Idle
    {
      detectionResult := None;
      originalImage := None;
      if objectUrl.Some? {
        revoked := revoked + {objectUrl.value};
        objectUrl := None;
      }
    }

    /** `unmounted`: revokes the held handle so nothing the component owned stays alive. */
    method Unmounted()
      requires NoLeak()
      modifies this
      ensures NoLeak() && held <= revoked && objectUrl.None?
      ensures revoked == old(revoked) + Handles(old(objectUrl)) && held == old(held)
      ensures loading == old(loading) && detectionResult == old(detectionResult)
      ensures screenshotImage == old(screenshotImage) && screenshotBlob == old(screenshotBlob)
      ensures originalImage == old(originalImage)
    {
      if objectUrl.Some? {
        revoked := revoked + {objectUrl.value};
        objectUrl := None;
      }
    }
  }
}
