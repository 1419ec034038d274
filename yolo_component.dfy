/**
 * The detection session of components/YoloDetection.js. Same data fields as
 * the app.js copy, different transitions: the component makes its own
 * `blob:` URL from the screenshot blob, checks only for a blob before
 * detecting, keeps the preview after a success, and `clearResults` touches
 * nothing but the result.
 */
module YoloDetectionComponent {
  import opened Opt
  import opened Detection

  /** The payload of the `screenshot-taken` event. */
  datatype ScreenshotData = ScreenshotData(imageUrl: Option<Url>, blob: Option<Blob>)

  class YoloDetection {
    var loading: bool
    var detectionResult: Option<DetectionResult>
    var screenshotImage: Option<Url>
    var screenshotBlob: Option<Blob>
    var originalImage: Option<Url>
    var objectUrl: Option<Url>
    ghost var held: set<Url>
    ghost var revoked: set<Url>

    /** Every handle the component has made is revoked, except the one it still holds. */
    ghost predicate NoLeak()
      reads this
    {
      && Handles(objectUrl) <= held
      && forall u | u in held && u !in revoked :: objectUrl == Some(u)
    }

    function Phase(): (ph: SessionPhase)
      reads this
    {
      PhaseOf(loading, detectionResult, screenshotImage)
    }

    /** `data()`: nothing held, not loading. */
    constructor ()
      ensures NoLeak() && Phase() == Idle
      ensures !loading && detectionResult.None? && screenshotImage.None? && screenshotBlob.None?
      ensures originalImage.None? && objectUrl.None? && held == {} && revoked == {}
    {
      loading := false;
      detectionResult := None;
      screenshotImage := None;
      screenshotBlob := None;
      originalImage := None;
      objectUrl := None;
      held := {};
      revoked := {};
    }

    /**
     * `handleScreenshot(data)`: first revokes and forgets the held handle.
     * With a blob, `created` is what `URL.createObjectURL` returned (`None`
     * when it threw, and the event's own URL is shown instead); without one,
     * the event's URL (or nothing) is shown and no blob is kept. The original
     * image follows the preview and any earlier result is dropped.
     */
    method HandleScreenshot(data: Option<ScreenshotData>, created: Option<Url>)
      requires NoLeak()
      modifies this
      ensures NoLeak()
      ensures revoked == old(revoked) + Handles(old(objectUrl))
      ensures var hasBlob := data.Some? && data.value.blob.Some?;
        var eventUrl := if data.Some? then data.value.imageUrl else None;
        && (hasBlob && created.Some? ==>
              objectUrl == created && screenshotImage == created && held == old(held) + Handles(created))
        && (hasBlob && created.None? ==>
              objectUrl.None? && screenshotImage == eventUrl && held == old(held))
        && (hasBlob ==> screenshotBlob == data.value.blob)
        && (!hasBlob ==>
              objectUrl.None? && screenshotImage == eventUrl && screenshotBlob.None? && held == old(held))
      ensures originalImage == screenshotImage && detectionResult.None? && loading == old(loading)
    {
      if objectUrl.Some? {
        revoked := revoked + {objectUrl.value};
        objectUrl := None;
      }
      if data.Some? && data.value.blob.Some? {
        if created.Some? {
          objectUrl := created;
          held := held + {created.value};
          screenshotImage := objectUrl;
        } else {
          screenshotImage := data.value.imageUrl;
        }
        screenshotBlob := data.value.blob;
      } else {
        screenshotImage := if data.Some? then data.value.imageUrl else None;
        screenshotBlob := None;
      }
      originalImage := screenshotImage;
      detectionResult := None;
    }

    /**
     * `detectObjects` up to the request: without a blob it returns at once
     * and changes nothing; otherwise it sets `loading` and sends the blob.
     * There is no guard on `loading` here.
     */
    method DetectObjectsStart() returns (request: Option<Blob>)
      requires NoLeak()
      modifies this
      ensures NoLeak()
      ensures request == old(screenshotBlob)
      ensures loading == (request.Some? || old(loading))
      ensures detectionResult == old(detectionResult) && screenshotImage == old(screenshotImage)
      ensures screenshotBlob == old(screenshotBlob) && originalImage == old(originalImage)
      ensures objectUrl == old(objectUrl) && held == old(held) && revoked == old(revoked)
    {
      if screenshotBlob.None? {
        return None;
      }
      loading := true;
      request := screenshotBlob;
    }

    /**
     * `detectObjects` after the request: success stores the result and fills
     * the original image from the preview only when it was empty; failure
     * keeps the earlier result. The preview fields are kept either way and
     * `loading` ends false.
     */
    method DetectObjectsFinish(response: Option<DetectionResult>)
      requires NoLeak()
      modifies this
      ensures NoLeak()
      ensures !loading
      ensures response.Some? ==> detectionResult == response && Phase() == ResultReady
      ensures response.Some? ==>
        originalImage == (if old(originalImage).None? then old(screenshotImage) else old(originalImage))
      ensures response.None? ==> detectionResult == old(detectionResult) && originalImage == old(originalImage)
      ensures screenshotImage == old(screenshotImage) && screenshotBlob == old(screenshotBlob)
      ensures objectUrl == old(objectUrl) && held == old(held) && revoked == old(revoked)
    {
      if response.Some? {
        detectionResult := response;
        if originalImage.None? {
          originalImage := screenshotImage;
        }
      }
      loading := false;
    }

    /** `clearScreenshot`: drops preview, blob and original image and revokes the held handle. */
    method ClearScreenshot()
      requires NoLeak()
      modifies this
      ensures NoLeak() && held <= revoked
      ensures screenshotImage.None? && screenshotBlob.None? && originalImage.None? && objectUrl.None?
      ensures revoked == old(revoked) + Handles(old(objectUrl)) && held == old(held)
      ensures detectionResult == old(detectionResult) && loading == old(loading)
    {
      screenshotImage := None;
      screenshotBlob := None;
      originalImage := None;
      if objectUrl.Some? {
        revoked := revoked + {objectUrl.value};
        objectUrl := None;
      }
    }

    /** `clearResults`: drops only the result; the images and the held handle stay. */
    method ClearResults()
      requires NoLeak()
      modifies this
      ensures NoLeak()
      ensures detectionResult.None?
      ensures loading == old(loading) && screenshotImage == old(screenshotImage)
      ensures screenshotBlob == old(screenshotBlob) && originalImage == old(originalImage)
      ensures objectUrl == old(objectUrl) && held == old(held) && revoked == old(revoked)
    {
      detectionResult := None;
    }
  }
}
