/**
  The import run: each table's rows are read from the dump with the COPY
  scanner, turned into writes row by row, and applied to the destination
  tables in the order tags, technologies, landing page, social links, blog
  posts, project posts. An error raised outside the per-row handling ends the
  run and rolls every table back.
 */
module Import {
  import opened Wrappers
  import opened CopyScanner
  import opened TableWrites
  import opened RowTransforms

  // ---------------------------------------------------------------------
  // The rows of one table, processed in order
  // ---------------------------------------------------------------------

  /** The writes asked for by a run of rows, and the error that ended it, if any. */
  datatype Collected<F> = Collected(items: seq<Item<F>>, stop: Option<Abort>)

  /**
    The rows processed one after the other: each write is kept in row order,
    skipped rows add nothing, and the first stopping row ends the processing.
   */
  function Collect<F>(rows: seq<Row>, step: Row -> Outcome<F>): Collected<F>
    decreases |rows|
  {
    if rows == [] then Collected([], None)
    else Extend(Collect(rows[..|rows| - 1], step), step(rows[|rows| - 1]))
  }

  /** One more row processed, unless the processing has stopped already. */
  function Extend<F>(before: Collected<F>, outcome: Outcome<F>): Collected<F> {
    if before.stop.Some? then before
    else
      match outcome
      case Write(item) => Collected(before.items + [item], None)
      case Skip => before
      case Stop(e) => Collected(before.items, Some(e))
  }

  /** The processing of a prefix of the rows grows one row at a time. */
  lemma CollectNext<F>(rows: seq<Row>, step: Row -> Outcome<F>, i: nat)
    requires i < |rows|
    ensures Collect(rows[..i + 1], step) == Extend(Collect(rows[..i], step), step(rows[i]))
  {
    assert rows[..i + 1][..i] == rows[..i];
  }

  /** Rows after the one that stopped the processing are never looked at. */
  lemma {:induction false} CollectStopped<F>(rows: seq<Row>, step: Row -> Outcome<F>, i: nat)
    requires i <= |rows| && Collect(rows[..i], step).stop.Some?
    ensures Collect(rows, step) == Collect(rows[..i], step)
    decreases |rows| - i
  {
    if i < |rows| {
      assert rows[..i + 1][..i] == rows[..i];
      CollectStopped(rows, step, i + 1);
    } else {
      assert rows[..i] == rows;
    }
  }

  /**
    The processing stops exactly when some row stops it, and then with the
    reason of the first such row.
   */
  lemma {:induction false} CollectStopsAtFirst<F>(rows: seq<Row>, step: Row -> Outcome<F>)
    ensures Collect(rows, step).stop.None? <==> forall i :: 0 <= i < |rows| ==> !step(rows[i]).Stop?
    ensures Collect(rows, step).stop.Some? ==>
              exists i :: 0 <= i < |rows| && step(rows[i]) == Stop(Collect(rows, step).stop.value)
                          && forall j :: 0 <= j < i ==> !step(rows[j]).Stop?
    decreases |rows|
  {
    if rows != [] {
      var n := |rows| - 1;
      var before := rows[..n];
      CollectStopsAtFirst(before, step);
      assert forall j :: 0 <= j < n ==> before[j] == rows[j];
      if Collect(before, step).stop.Some? {
        var i :| 0 <= i < n && step(before[i]) == Stop(Collect(before, step).stop.value)
                 && forall j :: 0 <= j < i ==> !step(before[j]).Stop?;
        assert step(rows[i]) == Stop(Collect(rows, step).stop.value);
      }
    }
  }

  /** The rows of a table as `parse_copy_data` returns them. */
  function TableRows(dump: seq<Line>, table: string): seq<Row> {
    CopyData(dump, table).0
  }

  // ---------------------------------------------------------------------
  // The whole run, on values
  // ---------------------------------------------------------------------

  /** The destination tables, each keyed by its natural key. */
  datatype Tables = Tables(tags: Table<NameFields>, technologies: Table<NameFields>,
                           socialLinks: Table<SocialFields>, blogPosts: Table<BlogFields>,
                           projectPosts: Table<ProjectFields>)

  /** `import_landing_page` up to the write: the content of the chosen row, if any. */
  function Landing(rows: seq<Row>, now: string): Result<Option<LandingPage>, Abort> {
    match SelectLanding(rows)
    case Failure(e) => Failure(e)
    case Success(choice) =>
      if choice.None? then Success(None)
      else
        assert choice.value < |rows|;
        Success(Some(LandingFrom(rows[choice.value], now)))
  }

  /** The first two imports: tags, then technologies, each first-wins. */
  function ImportNamed(t: Tables, dump: seq<Line>, now: string): Tables {
    t.(tags := InsertAll(t.tags, Collect(TableRows(dump, "tags"), TagStep(now)).items),
       technologies := InsertAll(t.technologies, Collect(TableRows(dump, "technologies"), TechnologyStep(now)).items))
  }

  /**
    The last two imports: blog posts, then project posts, each upserted; or
    the error of the first row that raises.
   */
  function ImportPosts(t: Tables, dump: seq<Line>, now: string): Result<Tables, Abort> {
    var blog := Collect(TableRows(dump, "blog_posts"), BlogStep(now));
    if blog.stop.Some? then Failure(blog.stop.value)
    else
      var project := Collect(TableRows(dump, "project_posts"), ProjectStep(now));
      if project.stop.Some? then Failure(project.stop.value)
      else Success(t.(blogPosts := UpsertAll(t.blogPosts, blog.items),
                      projectPosts := UpsertAll(t.projectPosts, project.items)))
  }

  /** The last three imports: social links upserted, then the posts. */
  function ImportContent(t: Tables, dump: seq<Line>, now: string): Result<Tables, Abort> {
    var social := UpsertAll(t.socialLinks, Collect(TableRows(dump, "social_links"), SocialStep(now)).items);
    ImportPosts(t.(socialLinks := social), dump, now)
  }

  /**
    The tables after a run over `dump` with the clock reading `now`, and the
    landing-page content; or the error that ended the run.
   */
  function ImportAll(t: Tables, dump: seq<Line>, now: string): Result<(Tables, Option<LandingPage>), Abort> {
    var named := ImportNamed(t, dump, now);
    match Landing(TableRows(dump, "landing_pages"), now)
    case Failure(e) => Failure(e)
    case Success(landing) =>
      match ImportContent(named, dump, now)
      case Failure(e) => Failure(e)
      case Success(done) => Success((done, landing))
  }

  /**
    A completed run never changes a stored tag or technology, nor the key or
    `created_at` of a stored social link, blog post or project post.
   */
  lemma ImportAllKeepsStored(t: Tables, dump: seq<Line>, now: string, k: string)
    requires ImportAll(t, dump, now).Success?
    ensures var after := ImportAll(t, dump, now).value.0;
            && (k in t.tags ==> k in after.tags && after.tags[k] == t.tags[k])
            && (k in t.technologies ==> k in after.technologies
                                        && after.technologies[k] == t.technologies[k])
            && (k in t.socialLinks ==> k in after.socialLinks
                                       && after.socialLinks[k].createdAt == t.socialLinks[k].createdAt)
            && (k in t.blogPosts ==> k in after.blogPosts
                                     && after.blogPosts[k].createdAt == t.blogPosts[k].createdAt)
            && (k in t.projectPosts ==> k in after.projectPosts
                                        && after.projectPosts[k].createdAt == t.projectPosts[k].createdAt)
  {
    InsertAllAt(t.tags, Collect(TableRows(dump, "tags"), TagStep(now)).items, k);
    InsertAllAt(t.technologies, Collect(TableRows(dump, "technologies"), TechnologyStep(now)).items, k);
    UpsertAllAt(t.socialLinks, Collect(TableRows(dump, "social_links"), SocialStep(now)).items, k);
    UpsertAllAt(t.blogPosts, Collect(TableRows(dump, "blog_posts"), BlogStep(now)).items, k);
    UpsertAllAt(t.projectPosts, Collect(TableRows(dump, "project_posts"), ProjectStep(now)).items, k);
  }

  /** With the clock fixed, importing the same dump again leaves every table as it was. */
  lemma ImportAllIdempotent(t: Tables, dump: seq<Line>, now: string)
    requires ImportAll(t, dump, now).Success?
    ensures ImportAll(ImportAll(t, dump, now).value.0, dump, now) == ImportAll(t, dump, now)
  {
    InsertAllIdempotent(t.tags, Collect(TableRows(dump, "tags"), TagStep(now)).items);
    InsertAllIdempotent(t.technologies, Collect(TableRows(dump, "technologies"), TechnologyStep(now)).items);
    UpsertAllIdempotent(t.socialLinks, Collect(TableRows(dump, "social_links"), SocialStep(now)).items);
    UpsertAllIdempotent(t.blogPosts, Collect(TableRows(dump, "blog_posts"), BlogStep(now)).items);
    UpsertAllIdempotent(t.projectPosts, Collect(TableRows(dump, "project_posts"), ProjectStep(now)).items);
  }

  // ---------------------------------------------------------------------
  // The run, step by step, on the destination database
  // ---------------------------------------------------------------------

  /** `import_landing_page` up to the write, which is not modelled. */
  method ImportLandingPage(dump: seq<Line>, now: string) returns (r: Result<Option<LandingPage>, Abort>)
    ensures r == Landing(TableRows(dump, "landing_pages"), now)
  {
    var rows, _ := ParseCopyData(dump, "landing_pages");
    if rows == [] {
      return Success(None);
    }
    var choice := SelectLanding(rows);
    if choice.Failure? {
      return Failure(choice.error);
    }
    var row := rows[choice.value.value];
    r := Success(Some(LandingFrom(row, now)));
  }

  /**
    The loop of `import_tags` and `import_technologies`: each row's write is
    an `INSERT ... ON CONFLICT DO NOTHING`; an error raised by a row ends the
    loop and is returned.
   */
  method InsertEach<F>(t: Table<F>, rows: seq<Row>, step: Row -> Outcome<F>)
    returns (r: Table<F>, stop: Option<Abort>)
    ensures var c := Collect(rows, step); stop == c.stop && r == InsertAll(t, c.items)
  {
    r := t;
    for i := 0 to |rows|
      invariant Collect(rows[..i], step).stop.None?
      invariant r == InsertAll(t, Collect(rows[..i], step).items)
    {
      ghost var before := Collect(rows[..i], step).items;
      CollectNext(rows, step, i);
      match step(rows[i])
      case Write(item) =>
        InsertAllSnoc(t, before, item);
        r := InsertIfAbsent(r, item);
      case Skip =>
      case Stop(e) =>
        CollectStopped(rows, step, i + 1);
        return r, Some(e);
    }
    assert rows[..|rows|] == rows;
    stop := None;
  }

  /**
    The loop of `import_blog_posts` and `import_project_posts`: each row's
    write is an `INSERT ... ON CONFLICT DO UPDATE`; an error raised by a row
    ends the loop and is returned.
   */
  method UpsertEach<F>(t: Table<F>, rows: seq<Row>, step: Row -> Outcome<F>)
    returns (r: Table<F>, stop: Option<Abort>)
    ensures var c := Collect(rows, step); stop == c.stop && r == UpsertAll(t, c.items)
  {
    r := t;
    for i := 0 to |rows|
      invariant Collect(rows[..i], step).stop.None?
      invariant r == UpsertAll(t, Collect(rows[..i], step).items)
    {
      ghost var before := Collect(rows[..i], step).items;
      CollectNext(rows, step, i);
      match step(rows[i])
      case Write(item) =>
        UpsertAllSnoc(t, before, item);
        r := Upsert(r, item);
      case Skip =>
      case Stop(e) =>
        CollectStopped(rows, step, i + 1);
        return r, Some(e);
    }
    assert rows[..|rows|] == rows;
    stop := None;
  }

  /**
    The loop of `import_social_links`: each row's key is looked up first, then
    the stored row's fields are updated or a new row is inserted. Two steps
    with the effect of one upsert.
   */
  method LookUpThenWriteEach<F>(t: Table<F>, rows: seq<Row>, step: Row -> Outcome<F>)
    returns (r: Table<F>, stop: Option<Abort>)
    ensures var c := Collect(rows, step); stop == c.stop && r == UpsertAll(t, c.items)
  {
    r := t;
    for i := 0 to |rows|
      invariant Collect(rows[..i], step).stop.None?
      invariant r == UpsertAll(t, Collect(rows[..i], step).items)
    {
      ghost var before := Collect(rows[..i], step).items;
      CollectNext(rows, step, i);
      match step(rows[i])
      case Write(item) =>
        UpsertAllSnoc(t, before, item);
        if item.key in r {
          var existing := r[item.key];
          r := r[item.key := Stored(existing.createdAt, item.fields)];
        } else {
          r := r[item.key := Fresh(item)];
        }
      case Skip =>
      case Stop(e) =>
        CollectStopped(rows, step, i + 1);
        return r, Some(e);
    }
    assert rows[..|rows|] == rows;
    stop := None;
  }

  /** The destination tables, updated in place by the import. */
  class Destination {
    var tags: Table<NameFields>
    var technologies: Table<NameFields>
    var socialLinks: Table<SocialFields>
    var blogPosts: Table<BlogFields>
    var projectPosts: Table<ProjectFields>

    constructor(initial: Tables)
      ensures Snapshot() == initial
    {
      tags := initial.tags;
      technologies := initial.technologies;
      socialLinks := initial.socialLinks;
      blogPosts := initial.blogPosts;
      projectPosts := initial.projectPosts;
    }

    /** The current contents of every table. */
    function Snapshot(): Tables
      reads this
    {
      Tables(tags, technologies, socialLinks, blogPosts, projectPosts)
    }

    /** Puts every table back as saved: the rollback. */
    method Restore(saved: Tables)
      modifies this
      ensures Snapshot() == saved
    {
      tags := saved.tags;
      technologies := saved.technologies;
      socialLinks := saved.socialLinks;
      blogPosts := saved.blogPosts;
      projectPosts := saved.projectPosts;
    }

    /** `import_tags`: each named row inserted unless its name is stored already. */
    method ImportTags(dump: seq<Line>, now: string)
      modifies this`tags
      ensures tags == InsertAll(old(tags), Collect(TableRows(dump, "tags"), TagStep(now)).items)
    {
      var rows, _ := ParseCopyData(dump, "tags");
      var stop;
      tags, stop := InsertEach(tags, rows, TagStep(now));
      // A tag row never raises outside its `try`, so there is no error to pass on.
      CollectStopsAtFirst(rows, TagStep(now));
      assert stop.None?;
    }

    /** `import_technologies`: the same policy as tags, with its own fallback column. */
    method ImportTechnologies(dump: seq<Line>, now: string)
      modifies this`technologies
      ensures technologies
              == InsertAll(old(technologies), Collect(TableRows(dump, "technologies"), TechnologyStep(now)).items)
    {
      var rows, _ := ParseCopyData(dump, "technologies");
      var stop;
      technologies, stop := InsertEach(technologies, rows, TechnologyStep(now));
      // As for tags, no row raises, so there is no error to pass on.
      CollectStopsAtFirst(rows, TechnologyStep(now));
      assert stop.None?;
    }

    /**
      `import_social_links`: a row with a link looks the link up, then updates
      the display name, icon and `updated_at` of the stored link or inserts a
      new one.
     */
    method ImportSocialLinks(dump: seq<Line>, now: string)
      modifies this`socialLinks
      ensures socialLinks
              == UpsertAll(old(socialLinks), Collect(TableRows(dump, "social_links"), SocialStep(now)).items)
    {
      var rows, _ := ParseCopyData(dump, "social_links");
      var stop;
      socialLinks, stop := LookUpThenWriteEach(socialLinks, rows, SocialStep(now));
      // A social-link row is either skipped or written, never raising.
      CollectStopsAtFirst(rows, SocialStep(now));
      assert stop.None?;
    }

    /**
      `import_blog_posts`: each row upserted by slug, until a row raises outside
      the per-row handling; `stop` is that error.
     */
    method ImportBlogPosts(dump: seq<Line>, now: string) returns (stop: Option<Abort>)
      modifies this`blogPosts
      ensures var c := Collect(TableRows(dump, "blog_posts"), BlogStep(now));
              stop == c.stop && blogPosts == UpsertAll(old(blogPosts), c.items)
    {
      var rows, _ := ParseCopyData(dump, "blog_posts");
      blogPosts, stop := UpsertEach(blogPosts, rows, BlogStep(now));
    }

    /** `import_project_posts`: each row upserted by the slug of its title, until a row raises. */
    method ImportProjectPosts(dump: seq<Line>, now: string) returns (stop: Option<Abort>)
      modifies this`projectPosts
      ensures var c := Collect(TableRows(dump, "project_posts"), ProjectStep(now));
              stop == c.stop && projectPosts == UpsertAll(old(projectPosts), c.items)
    {
      var rows, _ := ParseCopyData(dump, "project_posts");
      projectPosts, stop := UpsertEach(projectPosts, rows, ProjectStep(now));
    }

    /** `import_tags` then `import_technologies`. */
    method ImportNamedTables(dump: seq<Line>, now: string)
      modifies this`tags, this`technologies
      ensures Snapshot() == ImportNamed(old(Snapshot()), dump, now)
    {
      ImportTags(dump, now);
      ImportTechnologies(dump, now);
    }

    /** `import_blog_posts` then `import_project_posts`, stopping at the first error. */
    method ImportPostTables(dump: seq<Line>, now: string) returns (stop: Option<Abort>)
      modifies this`blogPosts, this`projectPosts
      ensures match ImportPosts(old(Snapshot()), dump, now)
              case Success(after) => stop == None && Snapshot() == after
              case Failure(e) => stop == Some(e)
    {
      stop := ImportBlogPosts(dump, now);
      if stop.None? {
        stop := ImportProjectPosts(dump, now);
      }
    }

    /**
      `import_social_links`, `import_blog_posts` then `import_project_posts`,
      stopping at the first error, which is returned.
     */
    method ImportContentTables(dump: seq<Line>, now: string) returns (stop: Option<Abort>)
      modifies this`socialLinks, this`blogPosts, this`projectPosts
      ensures match ImportContent(old(Snapshot()), dump, now)
              case Success(after) => stop == None && Snapshot() == after
              case Failure(e) => stop == Some(e)
    {
      ImportSocialLinks(dump, now);
      stop := ImportPostTables(dump, now);
    }

    /**
      The body of `main`'s transaction: the six imports in order, stopping at
      the first error. A completed run leaves the tables `ImportAll`
      describes and yields the landing content; a failed one yields the error
      and leaves the tables partly written.
     */
    method ImportInOrder(dump: seq<Line>, now: string) returns (result: Result<Option<LandingPage>, Abort>)
      modifies this
      ensures match ImportAll(old(Snapshot()), dump, now)
              case Success(done) => result == Success(done.1) && Snapshot() == done.0
              case Failure(e) => result == Failure(e)
    {
      ImportNamedTables(dump, now);
      var landing := ImportLandingPage(dump, now);
      if landing.Failure? {
        return Failure(landing.error);
      }
      var stop := ImportContentTables(dump, now);
      if stop.Some? {
        return Failure(stop.value);
      }
      result := Success(landing.value);
    }

    /**
      `main`: the imports inside one transaction, committed when they all
      complete and rolled back when one raises, so a failed run leaves every
      table as it was before.
     */
    method Run(dump: seq<Line>, now: string) returns (result: Result<Option<LandingPage>, Abort>)
      modifies this
      ensures match ImportAll(old(Snapshot()), dump, now)
              case Success(done) => result == Success(done.1) && Snapshot() == done.0
              case Failure(e) => result == Failure(e) && Snapshot() == old(Snapshot())
    {
      var saved := Snapshot();
      result := ImportInOrder(dump, now);
      if result.Failure? {
        Restore(saved);
      }
    }
  }
}
