/**
  How each `import_*` function turns one parsed row into the values it
  writes: `dict.get` defaults, the blog and project slugs, `likes`,
  `is_published`, the tag and technology names, the social-link skip rule,
  and the choice of the landing-page row.

  A row comes from the COPY scanner: a column missing from a short data line
  is absent from the row, and SQL NULL is a present key bound to `None`.
 */
module RowTransforms {
  import opened Wrappers
  import opened Text
  import opened Slugs
  import opened CopyScanner
  import opened TableWrites

  /** An error raised outside the per-row `try`, which ends the whole run. */
  datatype Abort =
    | NullTitle              // `create_slug(None)`: `None.lower()` raises AttributeError
    | NotAnInteger(text: string)  // `int(text)` raises ValueError
    | IncomparableUpdatedAt  // `max` compares `None` with another key: TypeError

  /** What one row asks of its table: a write, nothing, or the end of the run. */
  datatype Outcome<F> = Write(item: Item<F>) | Skip | Stop(reason: Abort)

  /** `row.get(key, default)`: the default stands in only for an absent key. */
  function Get(row: Row, key: string, default: Option<string>): (v: Option<string>)
    ensures key in row ==> v == row[key]
    ensures key !in row ==> v == default
  {
    if key in row then row[key] else default
  }

  /** Python truthiness of an optional text: not `None` and not empty. */
  predicate Truthy(v: Option<string>) {
    v.Some? && v.value != ""
  }

  /** `COALESCE(value, NOW())` with the clock reading `now`. */
  function Stamp(v: Option<string>, now: string): string {
    v.GetOr(now)
  }

  // ---------------------------------------------------------------------
  // Field sets written by each table
  // ---------------------------------------------------------------------

  /** The replaceable fields of a `tags` or `technologies` row. */
  datatype NameFields = NameFields(updatedAt: string)

  /** What a conflicting `social_links` write replaces. */
  datatype SocialFields = SocialFields(displayName: Option<string>, iconShortcode: Option<string>,
                                       updatedAt: string)

  /** What a conflicting `blog_posts` write replaces. */
  datatype BlogFields = BlogFields(title: Option<string>, postContent: Option<string>,
                                   postSummary: Option<string>, likes: int, isPublished: bool,
                                   updatedAt: string)

  /** What a conflicting `project_posts` write replaces. */
  datatype ProjectFields = ProjectFields(title: string, projectSummary: Option<string>,
                                         projectUrl: Option<string>, isPublished: bool,
                                         updatedAt: string)

  /** The landing-page content derived from the chosen row. */
  datatype LandingPage = LandingPage(header: Option<string>, description: Option<string>,
                                     subHeaders: Option<string>, createdAt: string,
                                     updatedAt: string)

  // ---------------------------------------------------------------------
  // Shared derivations
  // ---------------------------------------------------------------------

  /** `is_published`: `published_at` is present, not NULL and not the text `\N`. */
  function IsPublished(row: Row): (b: bool)
    ensures b <==> "published_at" in row && row["published_at"].Some?
                   && row["published_at"].value != NullMarker
  {
    var p := Get(row, "published_at", None);
    p.Some? && p.value != NullMarker
  }

  /**
    `likes`: 0 when the value is absent, NULL, empty or `\N`; otherwise
    `int(value)`, whose failure ends the run.
   */
  function Likes(row: Row): (r: Result<int, Abort>)
    ensures var v := Get(row, "likes", None);
            && (!Truthy(v) || v.value == NullMarker ==> r == Success(0))
            && (Truthy(v) && v.value != NullMarker ==>
                  match ParseInt(v.value)
                  case Some(n) => r == Success(n)
                  case None => r == Failure(NotAnInteger(v.value)))
  {
    var v := Get(row, "likes", None);
    if Truthy(v) && v.value != NullMarker then
      match ParseInt(v.value)
      case Some(n) => Success(n)
      case None => Failure(NotAnInteger(v.value))
    else Success(0)
  }

  /** A `likes` text written by `str`, within the digit limit, is read back as the same number. */
  lemma LikesReadsNumber(row: Row, n: int)
    requires "likes" in row && row["likes"] == Some(ShowInt(n))
    requires |ShowNat(if n < 0 then -n else n)| <= MaxStrDigits
    ensures Likes(row) == Success(n)
  {
    ParseShowInt(n);
    assert ShowInt(n) != "" && ShowInt(n) != NullMarker by {
      if n < 0 {
        ShowNatDigits(-n);
        assert ShowInt(n)[1] == ShowNat(-n)[0];
      } else {
        ShowNatDigits(n);
      }
      assert IsDigit(ShowInt(n)[|ShowInt(n)| - 1]) by {
        if n < 0 {
          assert ShowInt(n)[|ShowInt(n)| - 1] == ShowNat(-n)[|ShowNat(-n)| - 1];
        }
      }
    }
  }

  // ---------------------------------------------------------------------
  // Tags and technologies
  // ---------------------------------------------------------------------

  /**
    `row.get("name") or row.get(column, fallback)`: the name when it is truthy,
    otherwise the fallback column, with `fallback` only when that column is
    absent. `None` when the fallback column holds NULL.
   */
  function NameFrom(row: Row, column: string, fallback: string): (name: Option<string>)
    ensures Truthy(Get(row, "name", None)) ==> name == row["name"]
    ensures !Truthy(Get(row, "name", None)) && column !in row ==> name == Some(fallback)
    ensures !Truthy(Get(row, "name", None)) && column in row ==> name == row[column]
  {
    var name := Get(row, "name", None);
    if Truthy(name) then name else Get(row, column, Some(fallback))
  }

  /**
    The write of one `tags` or `technologies` row. A NULL name cannot be
    stored under the `name` key, so that row writes nothing.
   */
  function NameOutcome(row: Row, column: string, fallback: string, now: string): (o: Outcome<NameFields>)
    ensures o.Write? <==> NameFrom(row, column, fallback).Some?
    ensures o.Write? ==>
              && o.item.key == NameFrom(row, column, fallback).value
              && o.item.createdAt == Stamp(Get(row, "created_at", None), now)
              && o.item.fields.updatedAt == Stamp(Get(row, "updated_at", None), now)
    ensures !o.Stop?
  {
    match NameFrom(row, column, fallback)
    case Some(name) =>
      Write(Item(name, Stamp(Get(row, "created_at", None), now),
                 NameFields(Stamp(Get(row, "updated_at", None), now))))
    case None => Skip
  }

  function TagStep(now: string): Row -> Outcome<NameFields> {
    row => NameOutcome(row, "tag", "Uncategorized", now)
  }

  function TechnologyStep(now: string): Row -> Outcome<NameFields> {
    row => NameOutcome(row, "technology", "Unknown", now)
  }

  // ---------------------------------------------------------------------
  // Social links
  // ---------------------------------------------------------------------

  /**
    The write of one `social_links` row: a row whose `link` is absent, NULL or
    empty is skipped; otherwise the link is the key and the display name and
    icon default only when their columns are absent.
   */
  function SocialOutcome(row: Row, now: string): (o: Outcome<SocialFields>)
    ensures o.Skip? <==> !Truthy(Get(row, "link", None))
    ensures !o.Stop?
    ensures o.Write? ==>
              && o.item.key == row["link"].value
              && o.item.fields.displayName == Get(row, "display_name", Some("Social Link"))
              && o.item.fields.iconShortcode == Get(row, "icon_shortcode", Some("fas fa-link"))
              && o.item.createdAt == Stamp(Get(row, "created_at", None), now)
              && o.item.fields.updatedAt == Stamp(Get(row, "updated_at", None), now)
  {
    var displayName := Get(row, "display_name", Some("Social Link"));
    var link := Get(row, "link", None);
    var icon := Get(row, "icon_shortcode", Some("fas fa-link"));
    if !Truthy(link) then Skip
    else
      Write(Item(link.value, Stamp(Get(row, "created_at", None), now),
                 SocialFields(displayName, icon, Stamp(Get(row, "updated_at", None), now))))
  }

  function SocialStep(now: string): Row -> Outcome<SocialFields> {
    row => SocialOutcome(row, now)
  }

  // ---------------------------------------------------------------------
  // Blog posts and project posts
  // ---------------------------------------------------------------------

  /**
    The blog slug: the row's own `slug` when it is truthy, otherwise
    `create_slug(title)`, which fails on a NULL title.
   */
  function BlogSlug(row: Row): (r: Result<string, Abort>)
    ensures Truthy(Get(row, "slug", None)) ==> r == Success(row["slug"].value)
    ensures !Truthy(Get(row, "slug", None)) ==>
              match Get(row, "title", Some("Untitled"))
              case Some(title) => r == Success(Slug(title))
              case None => r == Failure(NullTitle)
  {
    var slug := Get(row, "slug", None);
    if Truthy(slug) then Success(slug.value)
    else
      match Get(row, "title", Some("Untitled"))
      case Some(title) => Success(Slug(title))
      case None => Failure(NullTitle)
  }

  /**
    The write of one `blog_posts` row, keyed by its slug. The run ends when
    the slug needs a NULL title or `likes` is not an integer, in that order.
   */
  function BlogOutcome(row: Row, now: string): (o: Outcome<BlogFields>)
    ensures !o.Skip?
    ensures o.Stop? <==> BlogSlug(row).Failure? || Likes(row).Failure?
    ensures o.Stop? ==> o.reason == (if BlogSlug(row).Failure? then BlogSlug(row).error
                                     else Likes(row).error)
    ensures o.Write? ==>
              && o.item.key == BlogSlug(row).value
              && o.item.fields == BlogFields(Get(row, "title", Some("Untitled")),
                                             Get(row, "post_content", Some("")),
                                             Get(row, "post_summary", None),
                                             Likes(row).value, IsPublished(row),
                                             Stamp(Get(row, "updated_at", None), now))
              && o.item.createdAt == Stamp(Get(row, "created_at", None), now)
  {
    match BlogSlug(row)
    case Failure(e) => Stop(e)
    case Success(slug) =>
      match Likes(row)
      case Failure(e) => Stop(e)
      case Success(likes) =>
        Write(Item(slug, Stamp(Get(row, "created_at", None), now),
                   BlogFields(Get(row, "title", Some("Untitled")),
                              Get(row, "post_content", Some("")),
                              Get(row, "post_summary", None),
                              likes, IsPublished(row),
                              Stamp(Get(row, "updated_at", None), now))))
  }

  function BlogStep(now: string): Row -> Outcome<BlogFields> {
    row => BlogOutcome(row, now)
  }

  /**
    The write of one `project_posts` row: the slug is always
    `create_slug(title)`, and a NULL title ends the run.
   */
  function ProjectOutcome(row: Row, now: string): (o: Outcome<ProjectFields>)
    ensures !o.Skip?
    ensures o.Stop? <==> Get(row, "title", Some("Untitled Project")).None?
    ensures o.Stop? ==> o.reason == NullTitle
    ensures o.Write? ==>
              var title := Get(row, "title", Some("Untitled Project")).value;
              && o.item.key == Slug(title)
              && o.item.fields == ProjectFields(title, Get(row, "project_summary", None),
                                                Get(row, "project_url", None), IsPublished(row),
                                                Stamp(Get(row, "updated_at", None), now))
              && o.item.createdAt == Stamp(Get(row, "created_at", None), now)
  {
    match Get(row, "title", Some("Untitled Project"))
    case None => Stop(NullTitle)
    case Some(title) =>
      Write(Item(Slug(title), Stamp(Get(row, "created_at", None), now),
                 ProjectFields(title, Get(row, "project_summary", None),
                               Get(row, "project_url", None), IsPublished(row),
                               Stamp(Get(row, "updated_at", None), now))))
  }

  function ProjectStep(now: string): Row -> Outcome<ProjectFields> {
    row => ProjectOutcome(row, now)
  }

  /** A derived slug, blog or project, is a well-formed slug. */
  lemma DerivedSlugShape(row: Row, now: string)
    ensures ProjectOutcome(row, now).Write? ==>
              var key := ProjectOutcome(row, now).item.key;
              |key| <= MaxSlugLength && AllSlugChars(key) && NoDoubleHyphen(key)
    ensures BlogOutcome(row, now).Write? && !Truthy(Get(row, "slug", None)) ==>
              var key := BlogOutcome(row, now).item.key;
              |key| <= MaxSlugLength && AllSlugChars(key) && NoDoubleHyphen(key)
  {
    var title := Get(row, "title", Some("Untitled Project"));
    if title.Some? {
      SlugShape(title.value);
    }
    var blogTitle := Get(row, "title", Some("Untitled"));
    if blogTitle.Some? {
      SlugShape(blogTitle.value);
    }
  }

  // ---------------------------------------------------------------------
  // The landing-page row
  // ---------------------------------------------------------------------

  /** The key `max` compares a landing row by: `row.get("updated_at", "")`. */
  function UpdatedKey(row: Row): Option<string> {
    Get(row, "updated_at", Some(""))
  }

  /**
    The position `max` returns over non-empty keys: it keeps the current
    maximum and replaces it only by a strictly greater key, so the result is
    a greatest key and no earlier key is as great.
   */
  function LatestIndex(keys: seq<string>): (i: nat)
    requires |keys| >= 1
    ensures i < |keys|
    ensures forall j :: 0 <= j < |keys| ==> !StrLess(keys[i], keys[j])
    ensures forall j :: 0 <= j < i ==> StrLess(keys[j], keys[i])
    decreases |keys|
  {
    var n := |keys| - 1;
    if n == 0 then
      StrLessIrreflexive(keys[0]);
      0
    else
      var m := LatestIndex(keys[..n]);
      assert forall j :: 0 <= j < n ==> keys[..n][j] == keys[j];
      if StrLess(keys[m], keys[n]) then
        StrLessIrreflexive(keys[n]);
        LessThanLast(keys, m);
        assert forall j :: 0 <= j < n ==> !StrLess(keys[n], keys[j]) by {
          forall j | 0 <= j < n
            ensures !StrLess(keys[n], keys[j])
          {
            StrLessAsymmetric(keys[j], keys[n]);
          }
        }
        n
      else
        StrLessTotal(keys[m], keys[n]);
        m
  }

  /** Every key before the last is below it once the running maximum is. */
  lemma LessThanLast(keys: seq<string>, m: nat)
    requires 1 <= |keys| && m < |keys| - 1
    requires StrLess(keys[m], keys[|keys| - 1])
    requires forall j :: 0 <= j < |keys| - 1 ==> !StrLess(keys[m], keys[j])
    ensures forall j :: 0 <= j < |keys| - 1 ==> StrLess(keys[j], keys[|keys| - 1])
  {
    forall j | 0 <= j < |keys| - 1
      ensures StrLess(keys[j], keys[|keys| - 1])
    {
      StrLessTotal(keys[j], keys[m]);
      if keys[j] != keys[m] {
        StrLessTransitive(keys[j], keys[m], keys[|keys| - 1]);
      }
    }
  }

  /** The position a greatest key with no equally great key before it is unique. */
  lemma LatestIndexUnique(keys: seq<string>, i: nat)
    requires i < |keys|
    requires forall j :: 0 <= j < |keys| ==> !StrLess(keys[i], keys[j])
    requires forall j :: 0 <= j < i ==> StrLess(keys[j], keys[i])
    ensures LatestIndex(keys) == i
  {
    var m := LatestIndex(keys);
    StrLessTotal(keys[i], keys[m]);
    StrLessIrreflexive(keys[i]);
  }

  /**
    The landing row chosen from the parsed rows: none without rows, the only
    row when there is one, otherwise the first row with the greatest
    `updated_at`; with two rows or more a NULL `updated_at` ends the run.
   */
  function SelectLanding(rows: seq<Row>): (r: Result<Option<nat>, Abort>)
    ensures rows == [] ==> r == Success(None)
    ensures |rows| == 1 ==> r == Success(Some(0))
    ensures rows != [] && r.Success? ==> r.value.Some?
    ensures |rows| >= 2 ==>
              (r.Failure? <==> exists i :: 0 <= i < |rows| && UpdatedKey(rows[i]).None?)
    ensures r.Success? && r.value.Some? ==>
              && r.value.value < |rows|
              && (|rows| >= 2 ==>
                    var i := r.value.value;
                    && (forall j :: 0 <= j < |rows| ==>
                          !StrLess(UpdatedKey(rows[i]).value, UpdatedKey(rows[j]).value))
                    && (forall j :: 0 <= j < i ==>
                          StrLess(UpdatedKey(rows[j]).value, UpdatedKey(rows[i]).value)))
  {
    if rows == [] then Success(None)
    else if |rows| == 1 then Success(Some(0))
    else if exists i :: 0 <= i < |rows| && UpdatedKey(rows[i]).None? then
      Failure(IncomparableUpdatedAt)
    else
      var keys := seq(|rows|, i requires 0 <= i < |rows| => UpdatedKey(rows[i]).value);
      var i := LatestIndex(keys);
      assert forall j :: 0 <= j < |rows| ==> keys[j] == UpdatedKey(rows[j]).value;
      assert forall j :: 0 <= j < |rows| ==>
               !StrLess(UpdatedKey(rows[i]).value, UpdatedKey(rows[j]).value) by {
        forall j | 0 <= j < |rows|
          ensures !StrLess(UpdatedKey(rows[i]).value, UpdatedKey(rows[j]).value)
        {
          assert keys[j] == UpdatedKey(rows[j]).value;
        }
      }
      assert forall j :: 0 <= j < i ==>
               StrLess(UpdatedKey(rows[j]).value, UpdatedKey(rows[i]).value) by {
        forall j | 0 <= j < i
          ensures StrLess(UpdatedKey(rows[j]).value, UpdatedKey(rows[i]).value)
        {
          assert keys[j] == UpdatedKey(rows[j]).value;
        }
      }
      Success(Some(i))
  }

  /** The landing-page content of the chosen row, with its `dict.get` defaults. */
  function LandingFrom(row: Row, now: string): (page: LandingPage)
    ensures page.header == Get(row, "header", Some("Welcome"))
    ensures page.description == Get(row, "description", Some(""))
    ensures page.subHeaders == Get(row, "comma_separated_sub_headers_string", Some(""))
  {
    LandingPage(Get(row, "header", Some("Welcome")), Get(row, "description", Some("")),
                Get(row, "comma_separated_sub_headers_string", Some("")),
                Stamp(Get(row, "created_at", None), now), Stamp(Get(row, "updated_at", None), now))
  }
}
