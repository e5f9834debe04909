/** The story-mode progress tracker of the story server. The session holds at
    most one progress record, `{scene, event_index}`; two routes overwrite it,
    and two read it. Scene files are known only by which ids exist, and their
    contents are opaque. */
module Story {

  import opened Optional

  /** The scene a player without usable progress starts from. */
  const FirstScene := "scene_1"

  /** The `story_progress` record. `scene` is `None` when the request that
      wrote it sent no scene (or JSON null); `eventIndex` is `None` only when
      the key is missing from the record. */
  datatype Progress = Progress(scene: Option<string>, eventIndex: Option<int>)

  /** The JSON body of a save: `scene` and `event_index`, each possibly absent. */
  datatype SaveRequest = SaveRequest(scene: Option<string>, eventIndex: Option<int>)

  /** The JSON body of a completion: `next_scene`, possibly absent. */
  datatype CompleteRequest = CompleteRequest(nextScene: Option<string>)

  /** The answer of the current-scene route: a 404 naming the missing scene,
      or the scene's data (opaque here) with the event to resume at. */
  datatype StoryResponse = NotFound(sceneId: string) | SceneData(sceneId: string, resumeEvent: int)

  /** A route's response together with the progress the session holds after it. */
  datatype Handled<R> = Handled(response: R, progress: Option<Progress>)

  /** The progress names a scene that counts as set: non-null and non-empty. */
  predicate HasScene(progress: Option<Progress>) {
    progress.Some? && progress.value.scene.Some? && progress.value.scene.value != ""
  }

  /** The scene to load: the recorded one when it is set, otherwise the first. */
  function SelectedScene(progress: Option<Progress>): (id: string)
    ensures HasScene(progress) ==> id == progress.value.scene.value
    ensures !HasScene(progress) ==> id == FirstScene
    ensures id != ""
  {
    if HasScene(progress) then progress.value.scene.value else FirstScene
  }

  /** The event to resume at: the recorded index whenever a record exists,
      even when its scene is not set, with 0 for a missing index or no record. */
  function ResumeEvent(progress: Option<Progress>): (k: int)
    ensures progress.None? ==> k == 0
    ensures progress.Some? && progress.value.eventIndex.Some? ==> k == progress.value.eventIndex.value
    ensures progress.Some? && progress.value.eventIndex.None? ==> k == 0
  {
    match progress
    case None => 0
    case Some(p) => p.eventIndex.GetOr(0)
  }

  /** `GET /api/story/current`. `scenes` is the set of scene ids whose file
      exists. The progress record is only read. */
  function GetStory(progress: Option<Progress>, scenes: set<string>): (r: Handled<StoryResponse>)
    ensures r.progress == progress
    ensures r.response.sceneId == SelectedScene(progress)
    ensures r.response.NotFound? <==> SelectedScene(progress) !in scenes
    ensures r.response.SceneData? ==> r.response.resumeEvent == ResumeEvent(progress)
  {
    var id := SelectedScene(progress);
    if id !in scenes then Handled(NotFound(id), progress)
    else Handled(SceneData(id, ResumeEvent(progress)), progress)
  }

  /** `POST /save-progress`: the record becomes the posted scene and event
      index (0 when no index was posted), whatever it was before. */
  function SaveProgress(progress: Option<Progress>, req: SaveRequest): (r: Handled<string>)
    ensures r.progress.Some?
    ensures r.progress.value.scene == req.scene
    ensures r.progress.value.eventIndex.Some?
    ensures req.eventIndex.Some? ==> r.progress.value.eventIndex == req.eventIndex
    ensures req.eventIndex.None? ==> r.progress.value.eventIndex == Some(0)
    ensures r.response == "saved"
  {
    Handled("saved", Some(Progress(req.scene, Some(req.eventIndex.GetOr(0)))))
  }

  /** `GET /session-data`: the stored record as it is, unchanged. */
  function SessionData(progress: Option<Progress>): (r: Handled<Option<Progress>>)
    ensures r.response == progress && r.progress == progress
  {
    Handled(progress, progress)
  }

  /** `POST /api/story/complete`: the record moves to the posted next scene
      at event 0, whatever it was before. */
  function CompleteScene(progress: Option<Progress>, req: CompleteRequest): (r: Handled<string>)
    ensures r.progress == Some(Progress(req.nextScene, Some(0)))
    ensures r.response == "success"
  {
    Handled("success", Some(Progress(req.nextScene, Some(0))))
  }
}
