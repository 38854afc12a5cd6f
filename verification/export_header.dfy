/**
 * The title, author and description a code exporter writes into its header:
 * the project's own values, with a fallback for each one that is missing.
 */
module ExportHeader {
  import opened Wrappers
  import opened Text

  /** The header fields handed to the backend. */
  datatype Header = Header(title: string, author: string, description: string)

  const DefaultTitle: string := "A Trizbort Map"
  const DefaultAuthor: string := "A Trizbort User"

  /**
   * The header fields of an export. `fileStem` is what
   * `PathHelper.SafeGetFilenameWithoutExtension` gives for the project's file
   * name.
   */
  function HeaderOf(title: Option<string>, fileStem: Option<string>, author: Option<string>,
                    description: Option<string>): (h: Header)
    ensures h.title != "" && h.author != ""
    ensures !IsNullOrEmpty(title) ==> h.title == title.value
    ensures IsNullOrEmpty(title) && !IsNullOrEmpty(fileStem) ==> h.title == fileStem.value
    ensures IsNullOrEmpty(title) && IsNullOrEmpty(fileStem) ==> h.title == DefaultTitle
    ensures h.author == if IsNullOrEmpty(author) then DefaultAuthor else author.value
    ensures h.description == if description.None? then "" else description.value
  {
    var t :=
      if !IsNullOrEmpty(title) then title.value
      else if !IsNullOrEmpty(fileStem) then fileStem.value
      else DefaultTitle;
    var a := if IsNullOrEmpty(author) then DefaultAuthor else author.value;
    Header(t, a, match description case Some(d) => d case None => "")
  }

  /**
   * A project that already carries the header's fields keeps them: defaulting
   * is idempotent, whatever the file name.
   */
  lemma HeaderIsFixedPoint(title: Option<string>, fileStem: Option<string>, author: Option<string>,
                           description: Option<string>, otherStem: Option<string>)
    ensures var h := HeaderOf(title, fileStem, author, description);
      HeaderOf(Some(h.title), otherStem, Some(h.author), Some(h.description)) == h
  {
  }

  /** The title falls back to the default only when neither the title nor the file name gives one. */
  lemma DefaultTitleOnlyWhenNothingElse(title: Option<string>, fileStem: Option<string>, author: Option<string>,
                                        description: Option<string>)
    requires title != Some(DefaultTitle) && fileStem != Some(DefaultTitle)
    ensures HeaderOf(title, fileStem, author, description).title == DefaultTitle <==>
      IsNullOrEmpty(title) && IsNullOrEmpty(fileStem)
  {
  }
}
