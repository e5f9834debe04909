/** How the story routes interact through the progress record. */
module StoryLaws {

  import opened Optional
  import opened Story

  /** A player with no progress is sent to the first scene at event 0, or
      gets a 404 when that scene's file is missing. */
  lemma NoProgressStartsAtFirstScene(scenes: set<string>)
    ensures var r := GetStory(None, scenes);
            && (FirstScene in scenes ==> r.response == SceneData(FirstScene, 0))
            && (FirstScene !in scenes ==> r.response == NotFound(FirstScene))
  {
  }

  /** Loading after a save resumes the saved scene at the saved event; when
      the save named no scene, it falls back to the first scene but still
      resumes at the saved event. */
  lemma SaveThenLoad(progress: Option<Progress>, req: SaveRequest, scenes: set<string>)
    ensures var saved := SaveProgress(progress, req).progress;
            var r := GetStory(saved, scenes);
            var id := if req.scene.Some? && req.scene.value != "" then req.scene.value else FirstScene;
            && r.response.sceneId == id
            && (id in scenes ==> r.response == SceneData(id, req.eventIndex.GetOr(0)))
            && (id !in scenes ==> r.response == NotFound(id))
  {
  }

  /** Loading after a completed scene starts the next scene (or the first,
      when no next scene was named) from event 0. */
  lemma CompleteThenLoad(progress: Option<Progress>, req: CompleteRequest, scenes: set<string>)
    ensures var done := CompleteScene(progress, req).progress;
            var r := GetStory(done, scenes);
            var id := if req.nextScene.Some? && req.nextScene.value != "" then req.nextScene.value else FirstScene;
            && r.response.sceneId == id
            && (id in scenes ==> r.response == SceneData(id, 0))
  {
  }

  /** The session data route hands back exactly what a save stored. */
  lemma SaveThenSessionData(progress: Option<Progress>, req: SaveRequest)
    ensures SessionData(SaveProgress(progress, req).progress).response
            == Some(Progress(req.scene, Some(req.eventIndex.GetOr(0))))
  {
  }

  /** Saves and completions overwrite the record: what was there before has
      no influence on what is there after. */
  lemma LastWriteWins(before1: Option<Progress>, before2: Option<Progress>, save: SaveRequest, done: CompleteRequest)
    ensures SaveProgress(before1, save) == SaveProgress(before2, save)
    ensures CompleteScene(before1, done) == CompleteScene(before2, done)
  {
  }

  /** The reading routes leave the record as it was, so reading the current
      scene and then the session data sees the record that was stored. */
  lemma ReadsDoNotWrite(progress: Option<Progress>, scenes: set<string>)
    ensures var afterRead := GetStory(progress, scenes).progress;
            && afterRead == progress
            && SessionData(afterRead).response == progress
            && GetStory(afterRead, scenes) == GetStory(progress, scenes)
  {
  }
}
