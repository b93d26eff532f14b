/**
 * The library's `Material`: its defaults, the two counters it bumps in
 * place, the author list it prints, and whether it has a file or a link.
 */
module LibraryModels {
  import opened Common

  /** `", ".join(names)`: the authors as `authors_display` prints them, in listing order. */
  function AuthorsDisplay(names: seq<string>): (r: string)
    ensures r == "" <==> |names| == 0 || (|names| == 1 && names[0] == "")
    ensures |names| == 1 ==> r == names[0]
  {
    Join(names, ", ")
  }

  /** Each name with one space in front of it, as it appears after a comma. */
  function Spaced(names: seq<string>): (r: seq<string>)
    ensures |r| == |names| && forall i :: 0 <= i < |names| ==> r[i] == " " + names[i]
  {
    seq(|names|, i requires 0 <= i < |names| => " " + names[i])
  }

  /** Joining with ", " is joining the space-prefixed names with ",". */
  lemma {:induction false} JoinSpaced(names: seq<string>)
    requires |names| >= 1
    ensures Join(Spaced(names), [',']) == " " + Join(names, ", ")
    decreases |names|
  {
    if |names| > 1 {
      assert Spaced(names)[1..] == Spaced(names[1..]);
      JoinSpaced(names[1..]);
    }
  }

  /**
   * When no name contains a comma, cutting the display at its commas gives
   * the first name, then every later name behind one space: the list can be
   * read back from the display.
   */
  lemma {:induction false} AuthorsDisplayReadsBack(names: seq<string>)
    requires |names| >= 1
    requires forall i :: 0 <= i < |names| ==> ',' !in names[i]
    ensures Split(AuthorsDisplay(names), ',') == [names[0]] + Spaced(names[1..])
  {
    var parts := [names[0]] + Spaced(names[1..]);
    if |names| > 1 {
      JoinSpaced(names[1..]);
      assert parts[1..] == Spaced(names[1..]);
      assert Join(parts, [',']) == names[0] + [','] + Join(Spaced(names[1..]), [',']);
      assert AuthorsDisplay(names) == Join(parts, [',']);
    } else {
      assert AuthorsDisplay(names) == Join(parts, [',']);
    }
    forall i | 0 <= i < |parts| ensures ',' !in parts[i] {
      if i > 0 {
        assert parts[i] == " " + names[i];
      }
    }
    SplitJoin(parts, ',');
  }

  /** A row of the `Material` table, as far as its own methods look at it. */
  class Material {
    var title: string
    var subject: int
    var materialType: string
    var language: string
    var isActive: bool
    var viewCount: int
    var downloadCount: int
    var file: Option<string>
    var externalUrl: Option<string>

    /** `Material.objects.create(title=..., subject=...)` with the model defaults. */
    constructor (title: string, subject: int)
      ensures this.title == title && this.subject == subject
      ensures materialType == "book" && language == "English" && isActive
      ensures viewCount == 0 && downloadCount == 0
      ensures file.None? && externalUrl.None?
      ensures !HasFile() && !HasExternalUrl()
    {
      this.title := title;
      this.subject := subject;
      materialType := "book";
      language := "English";
      isActive := true;
      viewCount := 0;
      downloadCount := 0;
      file := None;
      externalUrl := None;
    }

    /** `increment_view_count()`: one more view, and no other field written. */
    method IncrementViewCount()
      modifies this
      ensures viewCount == old(viewCount) + 1
      ensures downloadCount == old(downloadCount)
      ensures title == old(title) && subject == old(subject) && materialType == old(materialType)
      ensures language == old(language) && isActive == old(isActive)
      ensures file == old(file) && externalUrl == old(externalUrl)
    {
      viewCount := viewCount + 1;
    }

    /** `increment_download_count()`: one more download, and no other field written. */
    method IncrementDownloadCount()
      modifies this
      ensures downloadCount == old(downloadCount) + 1
      ensures viewCount == old(viewCount)
      ensures title == old(title) && subject == old(subject) && materialType == old(materialType)
      ensures language == old(language) && isActive == old(isActive)
      ensures file == old(file) && externalUrl == old(externalUrl)
    {
      downloadCount := downloadCount + 1;
    }

    /** `has_file`: a file is attached (a stored name that is not empty). */
    predicate HasFile(): (r: bool)
      reads this
      ensures r <==> file.Some? && |file.value| > 0
    {
      file.Some? && file.value != ""
    }

    /** `has_external_url`: a link is set and not empty. */
    predicate HasExternalUrl(): (r: bool)
      reads this
      ensures r <==> externalUrl.Some? && |externalUrl.value| > 0
    {
      externalUrl.Some? && externalUrl.value != ""
    }
  }
}
