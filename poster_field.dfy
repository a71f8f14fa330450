/** `src/app/gig-form/_components/PosterField.tsx`: the poster input shared by the
    create and edit forms. The selection (mode, file, URL) lives in the parent form; the
    field decides what a toggle does to it, which preview to show and which help text to
    print. The object URL of a chosen file comes from the browser and is a parameter. */
module PosterField {
  import opened Common
  import opened Text
  import opened Api
  import opened GigFormApi

  /** The toggle group's `onValueChange`. `choice` is None when the user clicks the
      selected item again, which the group reports as the empty value; that keeps the
      mode. Switching to upload clears the URL, switching to URL clears the file. */
  function Toggle(p: PosterSelection, choice: Option<PosterMode>): (r: PosterSelection) {
    var next := choice.GetOr(p.mode);
    if next == Upload then p.(mode := next, url := "") else p.(mode := next, file := None)
  }

  /** An empty toggle keeps the mode; a choice becomes the mode. After any toggle the
      selection holds only the part of its mode: no URL when uploading, no file when
      pasting a URL; the part of the mode is kept as it was. */
  lemma ToggleRules(p: PosterSelection, choice: Option<PosterMode>)
    ensures choice.None? ==> Toggle(p, choice).mode == p.mode
    ensures choice.Some? ==> Toggle(p, choice).mode == choice.value
    ensures var r := Toggle(p, choice);
      (r.mode == Upload ==> r.url == "" && r.file == p.file) &&
      (r.mode == Url ==> r.file.None? && r.url == p.url)
  {
  }

  /** Toggling to the same value twice is the same as once, and an empty toggle of a
      selection that already holds only its mode's part changes nothing. */
  lemma ToggleIdempotent(p: PosterSelection, choice: Option<PosterMode>)
    ensures Toggle(Toggle(p, choice), choice) == Toggle(p, choice)
    ensures (p.mode == Upload ==> p.url == "") && (p.mode == Url ==> p.file.None?) ==>
      Toggle(p, None) == p
  {
  }

  /** `localPreviewUrl`: an object URL for the chosen file, none without a file. */
  function LocalPreview(file: Option<File>, objectUrl: File -> string): Option<string> {
    if file.None? then None else Some(objectUrl(file.value))
  }

  /** `previewSrc`. `existing` is the optional `existingPosterUrl` prop. */
  function PreviewSrc(p: PosterSelection, isEdit: bool, existing: Option<string>, objectUrl: File -> string): Option<string> {
    if p.mode == Upload then LocalPreview(p.file, objectUrl)
    else if Trim(p.url) != "" then Some(Trim(p.url))
    else if isEdit then existing
    else None
  }

  /** The preview is rendered only for a non-empty source. */
  predicate PreviewShown(src: Option<string>) {
    src.Some? && src.value != ""
  }

  /** In upload mode the preview is the chosen file's, and there is none without a
      file. In URL mode a URL with text wins; otherwise the edit form falls back to the
      current poster and the create form shows nothing. */
  lemma PreviewRules(p: PosterSelection, isEdit: bool, existing: Option<string>, objectUrl: File -> string)
    ensures var src := PreviewSrc(p, isEdit, existing, objectUrl);
      (p.mode == Upload ==> ((src.Some? <==> p.file.Some?) &&
        (p.file.Some? ==> src == Some(objectUrl(p.file.value))))) &&
      (p.mode == Url && !IsBlank(p.url) ==> src == Some(Trim(p.url)) && PreviewShown(src)) &&
      (p.mode == Url && IsBlank(p.url) ==> src == (if isEdit then existing else None))
    ensures var src := PreviewSrc(p, isEdit, existing, objectUrl);
      p.mode == Url && !isEdit ==> (PreviewShown(src) <==> !IsBlank(p.url))
  {
  }

  /** The help text under the field. */
  function Description(isEdit: bool, mode: PosterMode): string {
    if !isEdit then
      (if mode == Upload then "Upload an image file (max 10MB)." else "Paste a direct image URL.")
    else if mode == Upload then "Upload a new image file to replace the poster (optional)."
    else "Paste a new direct image URL to replace the poster (optional)."
  }

  /** Each of the four combinations of form and mode has its own text: the text tells
      both apart. */
  lemma DescriptionDistinct(e1: bool, m1: PosterMode, e2: bool, m2: PosterMode)
    ensures Description(e1, m1) == Description(e2, m2) <==> e1 == e2 && m1 == m2
  {
    DescriptionLength(e1, m1);
    DescriptionLength(e2, m2);
  }

  /** The four texts have four different lengths. */
  lemma DescriptionLength(e: bool, m: PosterMode)
    ensures |Description(e, m)| == if !e then (if m == Upload then 32 else 25) else (if m == Upload then 57 else 62)
  {
  }

  /** The Clear button, shown in upload mode, is disabled without a file. */
  predicate ClearDisabled(p: PosterSelection) {
    p.file.None?
  }

  /** The URL input's placeholder. */
  function Placeholder(isEdit: bool): string {
    if isEdit then "Paste new poster image URL (optional)" else "e.g. https://example.com/poster.jpg"
  }

  /** The "Current poster: open" link: only in the edit form, only for a non-empty
      current poster, and it points at that poster. */
  function CurrentPosterLink(isEdit: bool, existing: Option<string>): (r: Option<string>)
    ensures r.Some? <==> isEdit && existing.Some? && existing.value != ""
    ensures r.Some? ==> r == existing
  {
    if isEdit && existing.Some? && existing.value != "" then existing else None
  }

  /** The create form never links the current poster. In the edit form with no URL
      typed, the preview falls back to the current poster exactly when the link to it
      is shown, and both show that poster. */
  lemma LinkMatchesFallbackPreview(p: PosterSelection, isEdit: bool, existing: Option<string>,
                                   objectUrl: File -> string)
    ensures !isEdit ==> CurrentPosterLink(isEdit, existing).None?
    ensures isEdit && p.mode == Url && IsBlank(p.url) ==>
      var src := PreviewSrc(p, isEdit, existing, objectUrl);
      (PreviewShown(src) <==> CurrentPosterLink(isEdit, existing).Some?) &&
      (PreviewShown(src) ==> src == CurrentPosterLink(isEdit, existing))
  {
    PreviewRules(p, isEdit, existing, objectUrl);
  }

  /** In upload mode, Clear is disabled exactly when there is no preview; a toggle to
      URL mode leaves nothing to clear. */
  lemma ClearRules(p: PosterSelection, isEdit: bool, existing: Option<string>, objectUrl: File -> string)
    ensures p.mode == Upload ==> (ClearDisabled(p) <==> PreviewSrc(p, isEdit, existing, objectUrl).None?)
    ensures ClearDisabled(Toggle(p, Some(Url)))
  {
  }
}
