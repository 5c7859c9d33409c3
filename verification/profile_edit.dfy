/**
 * Saving the profile editor: the two gates that make "save" do nothing,
 * the image URL that is sent, and the three fields of the update. The
 * image upload and the update request are parameters: the uploaded URL
 * (`None` when the upload fails) and the server's answer (`None` on failure).
 */
module ProfileEdit {
  import opened Wrappers
  import opened Js
  import opened Onboarding

  /** The parts of the signed-in user that saving reads. */
  datatype EditedUser = EditedUser(id: Option<int>, profileImage: Option<string>)

  /** The body of the update request: exactly these three fields. */
  datatype ProfileUpdate = ProfileUpdate(nickname: string, bio: string, profileImage: Option<string>)

  /** How a press of "save" ends. */
  datatype SaveOutcome<U> = Skipped | Failed | Updated(user: U)

  /**
   * `handleSave`. The first component is the update request sent (the
   * user id and the body), if any.
   */
  function HandleSave<F, U>(user: EditedUser, nickname: string, bio: string,
                            selectedFile: Option<F>, uploaded: Option<string>,
                            response: Option<U>): (r: (Option<(int, ProfileUpdate)>, SaveOutcome<U>))
    ensures (!Truthy(user.id) || !ValidateNickname(nickname)) <==> r.1.Skipped?
    ensures r.0.Some? <==> !r.1.Skipped? && (selectedFile.None? || uploaded.Some?)
    ensures r.0.Some? ==> r.0.value.0 == user.id.value
    ensures r.0.Some? ==> r.0.value.1.nickname == nickname && r.0.value.1.bio == bio
    ensures r.0.Some? && selectedFile.Some? ==> r.0.value.1.profileImage == uploaded
    ensures r.0.Some? && selectedFile.None? ==> r.0.value.1.profileImage == user.profileImage
    ensures r.1.Updated? <==> r.0.Some? && response.Some?
    ensures r.1.Updated? ==> r.1.user == response.value
  {
    if !Truthy(user.id) then (None, Skipped)
    else if !ValidateNickname(nickname) then (None, Skipped)
    else
      var image := if selectedFile.Some? then uploaded else user.profileImage;
      if selectedFile.Some? && uploaded.None? then (None, Failed)
      else
        var request := (user.id.value, ProfileUpdate(nickname, bio, image));
        match response
        case Some(updated) => (Some(request), Updated(updated))
        case None => (Some(request), Failed)
  }

  /**
   * Without a new picture the stored picture is sent back unchanged, so a
   * save that only edits the text keeps the picture.
   */
  lemma TextOnlySaveKeepsPicture<F, U>(user: EditedUser, nickname: string, bio: string, response: Option<U>)
    requires Truthy(user.id) && ValidateNickname(nickname)
    ensures HandleSave<F, U>(user, nickname, bio, None, None, response).0
      == Some((user.id.value, ProfileUpdate(nickname, bio, user.profileImage)))
  {
  }

  /** The editor accepts exactly the nicknames onboarding accepts, character by character. */
  lemma SaveGateIsTheOnboardingRule<F, U>(user: EditedUser, a: string, b: string, bio: string,
                                          file: Option<F>, uploaded: Option<string>, response: Option<U>)
    requires Truthy(user.id)
    ensures var passes := (n: string) => !HandleSave(user, n, bio, file, uploaded, response).1.Skipped?;
      passes(a + b) <==> passes(a) && passes(b)
  {
    NicknameConcat(a, b);
  }
}
