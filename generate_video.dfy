/**
 * The video use cases: the guards and the oldest-first ordering before a
 * timeline video is made, and the mapping of a failed generation to an error.
 */
module GenerateVideo {
  import opened Wrappers
  import opened WebhookModels
  import opened Firestore
  import Seqs
  import BearGroupRepository
  import BearRepository

  datatype VideoErrorType = NoGroup | NotEnoughBears | GenerationFailed

  const NoGroupMessage: string := "まだ食事の記録がないよ🐻\nまずは食事の写真を送ってね！"
  const NotEnoughBearsMessage: string := "動画を作るには2枚以上のクマ画像が必要だよ🐻\nもう少し食事を記録してね！"

  /** The most bears a video is made from. */
  const VideoBears: nat := 30

  /**
   * What `getBearsForVideo` returns: on success the group, the image URLs
   * oldest first and the bears with their meals in that order (from which
   * the flex message is built), or an error.
   */
  datatype BearsForVideo =
    | BearsReady(groupId: Id, bearImageUrls: seq<string>, bears: seq<BearRepository.BearWithMeal>)
    | VideoError(errorType: VideoErrorType, message: string)

  /** `bearsWithMeals.map((b) => b.bear.imageUrl)`. */
  function ImageUrls(bs: seq<BearRepository.BearWithMeal>): (r: seq<string>)
    ensures |r| == |bs| && forall k :: 0 <= k < |bs| ==> r[k] == bs[k].bear.imageUrl
  {
    seq(|bs|, k requires 0 <= k < |bs| => bs[k].bear.imageUrl)
  }

  /**
   * `getBearsForVideo`: `NoGroup` when the user has no active group,
   * `NotEnoughBears` when the group has fewer than two bears, and otherwise
   * the group's newest (at most 30) bears turned oldest first.
   */
  method GetBearsForVideo(db: Db, userId: string) returns (r: BearsForVideo)
    ensures BearGroupRepository.GetActiveGroup(db.groups, userId).None? <==> r == VideoError(NoGroup, NoGroupMessage)
    ensures BearGroupRepository.GetActiveGroup(db.groups, userId).Some? ==>
      var g := BearGroupRepository.GetActiveGroup(db.groups, userId).value;
      var newest := BearRepository.GetRecentBears(db.bears, userId, g.id, VideoBears);
      (|newest| < 2 <==> r == VideoError(NotEnoughBears, NotEnoughBearsMessage)) &&
      (r.BearsReady? ==>
        r.groupId == g.id && 2 <= |r.bearImageUrls| <= VideoBears && |r.bearImageUrls| == |newest| && |r.bears| == |newest| &&
        forall k :: 0 <= k < |newest| ==>
          r.bears[k].bear == newest[|newest| - 1 - k] && r.bearImageUrls[k] == newest[|newest| - 1 - k].imageUrl)
    ensures r.BearsReady? && BearRepository.Chronological(db.bears) ==>
      forall i, j :: 0 <= i < j < |r.bears| ==> r.bears[i].bear.createdAt <= r.bears[j].bear.createdAt
    ensures r.BearsReady? || r.errorType != GenerationFailed
  {
    var activeGroup := BearGroupRepository.GetActiveGroup(db.groups, userId);
    if activeGroup.None? {
      return VideoError(NoGroup, NoGroupMessage);
    }
    var bearsWithMeals := BearRepository.GetRecentBearsWithMeals(db, userId, activeGroup.value.id, VideoBears);
    if |bearsWithMeals| < 2 {
      return VideoError(NotEnoughBears, NotEnoughBearsMessage);
    }
    var reversed := Seqs.Reverse(bearsWithMeals);
    r := BearsReady(activeGroup.value.id, ImageUrls(reversed), reversed);
  }

  datatype GenerateVideoResponse =
    | VideoGenerated(videoUrl: string, thumbnailUrl: string)
    | VideoFailed(errorType: VideoErrorType, message: string)

  /**
   * `generateVideo`: the URLs the video service (`render`, an HTTP call) returns,
   * or, when it fails, `GenerationFailed` with the error's message.
   */
  function GenerateVideo(userId: string, groupId: Id, render: (string, Id) -> Result<(string, string), string>): (r: GenerateVideoResponse)
    ensures r.VideoFailed? <==> render(userId, groupId).Err?
    ensures r.VideoFailed? ==> r.errorType == GenerationFailed && r.message == render(userId, groupId).error
    ensures r.VideoGenerated? ==> (r.videoUrl, r.thumbnailUrl) == render(userId, groupId).value
  {
    match render(userId, groupId)
    case Ok((video, thumbnail)) => VideoGenerated(video, thumbnail)
    case Err(message) => VideoFailed(GenerationFailed, message)
  }
}
