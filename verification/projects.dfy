/** The project list page (src/app/page.tsx): the search / "my projects" filter,
    URL normalisation, the ownership test for the edit and delete controls, and
    the in-memory list after a create, update or delete the backend has answered. */
module ProjectList {
  import opened Wrappers
  import opened Text
  import opened Seqs
  import Auth

  /** A `projects` row joined with its owner's display name. A `null` tag list
      from the backend is represented by the empty list. */
  datatype Project = Project(
    id: string,
    title: string,
    createdAt: string,
    userId: string,
    tags: seq<string>,
    githubUrl: Option<string>,
    projectUrl: Option<string>,
    ownerName: string)

  /** The controlled inputs of the create form, and of the edit form. */
  datatype ProjectForm = ProjectForm(title: string, tags: seq<string>, githubUrl: string, projectUrl: string)

  function EmptyForm(): (f: ProjectForm)
    ensures f.title == [] && f.tags == [] && f.githubUrl == [] && f.projectUrl == []
  {
    ProjectForm("", [], "", "")
  }

  /** The page's state: the fetched list, both forms, the project being edited and the error banner. */
  datatype PageState = PageState(
    projects: seq<Project>,
    newForm: ProjectForm,
    editing: Option<Project>,
    editForm: ProjectForm,
    error: Option<string>)

  // ---------------------------------------------------------------- filter

  /** `project.title.toLowerCase().includes(searchQuery.toLowerCase())`. */
  predicate MatchesSearch(p: Project, query: string) {
    Includes(Lower(p.title), Lower(query))
  }

  /** `!showMyProjectsOnly || project.user_id === user?.id`; with nobody signed
      in, `user?.id` is undefined and equals no owner id. */
  predicate MatchesOwner(p: Project, myProjectsOnly: bool, user: Option<Auth.User>) {
    !myProjectsOnly || (user.Some? && p.userId == user.value.id)
  }

  /** `filteredProjects`: exactly the projects whose lower-cased title contains
      the lower-cased query and that pass the owner filter, in the list's order
      and with their multiplicities. */
  function FilteredProjects(projects: seq<Project>, query: string, myProjectsOnly: bool, user: Option<Auth.User>): (r: seq<Project>)
    ensures forall p :: p in r <==>
      && p in projects
      && (exists i :: OccursAt(Lower(p.title), Lower(query), i))
      && (!myProjectsOnly || (user.Some? && p.userId == user.value.id))
    ensures IsSubsequence(r, projects)
    ensures forall p :: multiset(r)[p] ==
                          if MatchesSearch(p, query) && MatchesOwner(p, myProjectsOnly, user) then multiset(projects)[p] else 0
  {
    var keep := p => MatchesSearch(p, query) && MatchesOwner(p, myProjectsOnly, user);
    FilterIsSubsequence(keep, projects);
    FilterCounts(keep, projects);
    Filter(keep, projects)
  }

  /** With an empty search box and the owner filter off, every project is listed, in order. */
  lemma EmptySearchListsAll(projects: seq<Project>, user: Option<Auth.User>)
    ensures FilteredProjects(projects, "", false, user) == projects
  {
    forall p | p in projects
      ensures MatchesSearch(p, "")
    {
      IncludesEmpty(Lower(p.title));
    }
    FilterAll(p => MatchesSearch(p, "") && MatchesOwner(p, false, user), projects);
  }

  /** The search ignores ASCII case: searching for the lower-cased query lists the same projects. */
  lemma SearchIgnoresCase(projects: seq<Project>, query: string, myProjectsOnly: bool, user: Option<Auth.User>)
    ensures FilteredProjects(projects, Lower(query), myProjectsOnly, user)
         == FilteredProjects(projects, query, myProjectsOnly, user)
  {
    LowerIdempotent(query);
    FilterCongruent(
      p => MatchesSearch(p, Lower(query)) && MatchesOwner(p, myProjectsOnly, user),
      p => MatchesSearch(p, query) && MatchesOwner(p, myProjectsOnly, user),
      projects);
  }

  /** With the owner filter on, every listed project offers its edit and delete
      controls; with nobody signed in, the filtered list is empty. */
  lemma MyProjectsAreEditable(projects: seq<Project>, query: string, user: Option<Auth.User>, editing: Option<Project>)
    ensures forall p :: p in FilteredProjects(projects, query, true, user) ==> ControlsFor(user, p, editing) != NoControls
    ensures user.None? ==> FilteredProjects(projects, query, true, user) == []
  {
  }

  // ---------------------------------------------------------------- ownership

  /** The buttons beside a project card. */
  datatype Controls = NoControls | EditAndDelete | SaveAndDelete

  /** `user?.id === project.user_id` gates both buttons; the first button is
      Save while this project is the one being edited, Edit otherwise. */
  function ControlsFor(user: Option<Auth.User>, p: Project, editing: Option<Project>): (c: Controls)
    ensures c != NoControls <==> user.Some? && user.value.id == p.userId
    ensures c == SaveAndDelete <==> c != NoControls && editing.Some? && editing.value.id == p.id
  {
    if user.Some? && user.value.id == p.userId then
      if editing.Some? && editing.value.id == p.id then SaveAndDelete else EditAndDelete
    else
      NoControls
  }

  // ---------------------------------------------------------------- URLs

  /** `url.trim() || null`: nothing when the text is all white space; otherwise
      the text with exactly its leading and trailing white space cut off. */
  function NormaliseUrl(url: string): (r: Option<string>)
    ensures r.None? <==> AllSpace(url)
    ensures r.Some? ==> r.value != [] && !IsSpace(r.value[0]) && !IsSpace(r.value[|r.value| - 1])
    ensures r.Some? ==> exists i :: TrimmedAt(url, r.value, i)
  {
    TrimRemovesOnlySpace(url);
    var t := Trim(url);
    if t == [] then None else Some(t)
  }

  /** What an edit form shows for a stored URL: `url || ''`. */
  function UrlField(url: Option<string>): (r: string)
    ensures url.Some? ==> r == url.value
    ensures url.None? ==> r == []
  {
    url.GetOr("")
  }

  /** Normalising what the edit form shows for a normalised URL gives the same URL back. */
  lemma UrlRoundTrip(url: string)
    ensures NormaliseUrl(UrlField(NormaliseUrl(url))) == NormaliseUrl(url)
  {
    TrimIdempotent(url);
  }

  /** A URL as the app stores it: absent, or already trimmed and non-empty. */
  predicate IsStoredUrl(url: Option<string>) {
    url.None? || (url.value != [] && !IsSpace(url.value[0]) && !IsSpace(url.value[|url.value| - 1]))
  }

  lemma StoredUrlRoundTrip(url: Option<string>)
    requires IsStoredUrl(url)
    ensures NormaliseUrl(UrlField(url)) == url
  {
    if url.Some? {
      TrimNoop(url.value);
    }
  }

  // ---------------------------------------------------------------- create

  /** The row `createProject` asks the backend to insert. */
  datatype NewProject = NewProject(
    title: string, userId: string, tags: seq<string>, githubUrl: Option<string>, projectUrl: Option<string>)

  /** The guard and the insert payload of `createProject`: nothing is sent when
      the title is blank or nobody is signed in. The title is sent exactly as
      typed, surrounding white space included; the URLs are normalised. */
  function CreateRequest(form: ProjectForm, user: Option<Auth.User>): (r: Option<NewProject>)
    ensures r.None? <==> AllSpace(form.title) || user.None?
    ensures r.Some? ==>
      && r.value.title == form.title
      && Trim(r.value.title) != []
      && r.value.userId == user.value.id
      && r.value.tags == form.tags
      && r.value.githubUrl == NormaliseUrl(form.githubUrl)
      && r.value.projectUrl == NormaliseUrl(form.projectUrl)
      && IsStoredUrl(r.value.githubUrl) && IsStoredUrl(r.value.projectUrl)
  {
    if IsBlank(form.title) || user.None? then
      None
    else
      Some(NewProject(form.title, user.value.id, form.tags, NormaliseUrl(form.githubUrl), NormaliseUrl(form.projectUrl)))
  }

  /** `createProject` once the backend has answered `reply` (consulted only when
      a request is sent). On success the returned rows go ahead of the existing
      list and the form resets; on an error the list and forms stay and the
      banner shows the message. */
  function CreateProject(st: PageState, user: Option<Auth.User>, reply: Reply<Option<seq<Project>>>): (r: PageState)
    ensures CreateRequest(st.newForm, user).None? ==> r == st
    ensures CreateRequest(st.newForm, user).Some? && reply.Ok? ==>
      var rows := reply.data.GetOr([]);
      && |r.projects| == |rows| + |st.projects|
      && r.projects[..|rows|] == rows
      && r.projects[|rows|..] == st.projects
      && r.newForm == EmptyForm()
      && r.editing == st.editing && r.editForm == st.editForm && r.error == st.error
    ensures CreateRequest(st.newForm, user).Some? && !reply.Ok? ==>
      && r.projects == st.projects && r.newForm == st.newForm
      && r.editing == st.editing && r.editForm == st.editForm
      && r.error.Some?
    ensures CreateRequest(st.newForm, user).Some? && reply.Failed? ==>
      r.error == Some("Error creating project: " + reply.message)
    ensures CreateRequest(st.newForm, user).Some? && reply.Threw? ==>
      r.error == Some(reply.thrown.GetOr("An unexpected error occurred"))
  {
    if CreateRequest(st.newForm, user).None? then
      st
    else
      match reply
      case Ok(data) =>
        var rows := data.GetOr([]);
        assert (rows + st.projects)[..|rows|] == rows;
        assert (rows + st.projects)[|rows|..] == st.projects;
        st.(projects := rows + st.projects, newForm := EmptyForm())
      case Failed(message) =>
        st.(error := Some("Error creating project: " + message))
      case Threw(thrown) =>
        st.(error := Some(thrown.GetOr("An unexpected error occurred")))
  }

  // ---------------------------------------------------------------- delete

  /** `deleteProject`: a declined confirmation or an unsuccessful delete leaves
      everything as it was; a confirmed delete removes exactly the entries with
      that id and keeps the rest in order, each as often as before. */
  function DeleteProject(st: PageState, id: string, confirmed: bool, reply: Reply<()>): (r: PageState)
    ensures !confirmed || !reply.Ok? ==> r == st
    ensures confirmed && reply.Ok? ==>
      && (forall p :: p in r.projects <==> p in st.projects && p.id != id)
      && IsSubsequence(r.projects, st.projects)
      && (forall p :: multiset(r.projects)[p] == if p.id != id then multiset(st.projects)[p] else 0)
      && r == st.(projects := r.projects)
  {
    if confirmed && reply.Ok? then
      var keep := (p: Project) => p.id != id;
      FilterIsSubsequence(keep, st.projects);
      FilterCounts(keep, st.projects);
      st.(projects := Filter(keep, st.projects))
    else
      st
  }

  // ---------------------------------------------------------------- update

  /** The Edit button: open the edit form on `p`, pre-filled from it, with an
      absent URL shown as an empty field. */
  function BeginEdit(st: PageState, p: Project): (r: PageState)
    ensures r.editing == Some(p)
    ensures r.editForm.title == p.title && r.editForm.tags == p.tags
    ensures r.editForm.githubUrl == UrlField(p.githubUrl) && r.editForm.projectUrl == UrlField(p.projectUrl)
    ensures r == st.(editing := r.editing, editForm := r.editForm)
  {
    st.(editing := Some(p), editForm := FormFor(p))
  }

  /** The saved form applied to one project: title (untrimmed), tags and both normalised URLs. */
  function ApplyEdit(p: Project, form: ProjectForm): (q: Project)
    ensures q.id == p.id && q.userId == p.userId && q.createdAt == p.createdAt && q.ownerName == p.ownerName
    ensures q.title == form.title && q.tags == form.tags
    ensures q.githubUrl == NormaliseUrl(form.githubUrl) && q.projectUrl == NormaliseUrl(form.projectUrl)
    ensures IsStoredUrl(q.githubUrl) && IsStoredUrl(q.projectUrl)
  {
    p.(title := form.title, tags := form.tags,
       githubUrl := NormaliseUrl(form.githubUrl), projectUrl := NormaliseUrl(form.projectUrl))
  }

  /** One step of the `map`: the edited copy for the project with that id, the project itself otherwise. */
  function PatchOne(p: Project, id: string, form: ProjectForm): Project {
    if p.id == id then ApplyEdit(p, form) else p
  }

  /** `projects.map(p => p.id === id ? {...p, <edited fields>} : p)`: the list
      keeps its length and order; only projects with that id change, and only in
      title, tags and the two URLs. */
  function PatchProjects(projects: seq<Project>, id: string, form: ProjectForm): (r: seq<Project>)
    ensures |r| == |projects|
    ensures forall i :: 0 <= i < |projects| ==> r[i] == PatchOne(projects[i], id, form)
    decreases |projects|
  {
    if projects == [] then
      []
    else
      [PatchOne(projects[0], id, form)] + PatchProjects(projects[1..], id, form)
  }

  /** Only the projects carrying the edited id change, and in them only the
      title, the tags and the two URLs, which take the form's (normalised) values. */
  lemma PatchOnlyTouchesTarget(projects: seq<Project>, id: string, form: ProjectForm)
    ensures forall i :: 0 <= i < |projects| && projects[i].id != id ==>
      PatchProjects(projects, id, form)[i] == projects[i]
    ensures forall i :: 0 <= i < |projects| && projects[i].id == id ==>
      var q := PatchProjects(projects, id, form)[i];
      && q == projects[i].(title := form.title, tags := form.tags,
                           githubUrl := NormaliseUrl(form.githubUrl), projectUrl := NormaliseUrl(form.projectUrl))
  {
  }

  /** `updateProject`: a blank edit title or an unsuccessful update changes
      nothing; a successful one patches the list and closes the edit form. */
  function UpdateProject(st: PageState, id: string, reply: Reply<()>): (r: PageState)
    ensures AllSpace(st.editForm.title) || !reply.Ok? ==> r == st
    ensures !AllSpace(st.editForm.title) && reply.Ok? ==>
      && r.projects == PatchProjects(st.projects, id, st.editForm)
      && r.editing.None? && r.editForm == EmptyForm()
      && r.newForm == st.newForm && r.error == st.error
  {
    if IsBlank(st.editForm.title) || !reply.Ok? then
      st
    else
      st.(projects := PatchProjects(st.projects, id, st.editForm), editing := None, editForm := EmptyForm())
  }

  /** A project as the app itself stores it: a non-blank title and normalised URLs. */
  predicate IsStoredProject(p: Project) {
    !AllSpace(p.title) && IsStoredUrl(p.githubUrl) && IsStoredUrl(p.projectUrl)
  }

  predicate UniqueProjectIds(projects: seq<Project>) {
    forall i, j :: 0 <= i < j < |projects| && projects[i].id == projects[j].id ==> i == j
  }

  /** The edit form as the Edit button fills it for `p`: title and tags as they
      are, each URL as stored or an empty field when absent, and so URL fields
      that normalise back to the stored URLs. */
  function FormFor(p: Project): (f: ProjectForm)
    ensures f.title == p.title && f.tags == p.tags
    ensures f.githubUrl == UrlField(p.githubUrl) && f.projectUrl == UrlField(p.projectUrl)
    ensures IsStoredUrl(p.githubUrl) ==> NormaliseUrl(f.githubUrl) == p.githubUrl
    ensures IsStoredUrl(p.projectUrl) ==> NormaliseUrl(f.projectUrl) == p.projectUrl
  {
    assert IsStoredUrl(p.githubUrl) ==> NormaliseUrl(UrlField(p.githubUrl)) == p.githubUrl by {
      if IsStoredUrl(p.githubUrl) { StoredUrlRoundTrip(p.githubUrl); }
    }
    assert IsStoredUrl(p.projectUrl) ==> NormaliseUrl(UrlField(p.projectUrl)) == p.projectUrl by {
      if IsStoredUrl(p.projectUrl) { StoredUrlRoundTrip(p.projectUrl); }
    }
    ProjectForm(p.title, p.tags, UrlField(p.githubUrl), UrlField(p.projectUrl))
  }

  /** Applying the unchanged form of a stored project gives the project back. */
  lemma ApplyUnchangedForm(p: Project)
    requires IsStoredUrl(p.githubUrl) && IsStoredUrl(p.projectUrl)
    ensures ApplyEdit(p, FormFor(p)) == p
  {
    StoredUrlRoundTrip(p.githubUrl);
    StoredUrlRoundTrip(p.projectUrl);
    assert NormaliseUrl(UrlField(p.githubUrl)) == p.githubUrl;
    assert NormaliseUrl(UrlField(p.projectUrl)) == p.projectUrl;
  }

  /** When every entry carrying `p`'s id is `p`, and the form leaves `p` as it
      is, patching leaves the whole list as it is. */
  lemma PatchFixedPoint(projects: seq<Project>, p: Project, form: ProjectForm)
    requires forall q :: q in projects && q.id == p.id ==> q == p
    requires ApplyEdit(p, form) == p
    ensures PatchProjects(projects, p.id, form) == projects
  {
    var r := PatchProjects(projects, p.id, form);
    forall i | 0 <= i < |projects|
      ensures r[i] == projects[i]
    {
      if projects[i].id == p.id {
        assert projects[i] == p;
      }
    }
  }

  /** Patching a list with the unchanged form of `p`, when every entry with
      `p`'s id is `p` itself, leaves the list as it was. */
  lemma PatchUnchanged(projects: seq<Project>, p: Project)
    requires forall q :: q in projects && q.id == p.id ==> q == p
    requires IsStoredUrl(p.githubUrl) && IsStoredUrl(p.projectUrl)
    ensures PatchProjects(projects, p.id, FormFor(p)) == projects
  {
    PatchFixedPoint(projects, p, FormFor(p)) by {
      ApplyUnchangedForm(p);
    }
  }

  /** Opening the edit form and saving it unchanged leaves the list as it was. */
  lemma SaveUnchangedEdit(st: PageState, p: Project)
    requires p in st.projects && UniqueProjectIds(st.projects) && IsStoredProject(p)
    ensures UpdateProject(BeginEdit(st, p), p.id, Ok(())).projects == st.projects
  {
    assert BeginEdit(st, p).editForm == FormFor(p);
    OnlyEntryWithId(st.projects, p);
    PatchUnchanged(st.projects, p);
  }

  /** On a list with unique ids, an entry is the only one carrying its id. */
  lemma OnlyEntryWithId(projects: seq<Project>, p: Project)
    requires p in projects && UniqueProjectIds(projects)
    ensures forall q :: q in projects && q.id == p.id ==> q == p
  {
    forall q | q in projects && q.id == p.id
      ensures q == p
    {
      var i :| 0 <= i < |projects| && projects[i] == q;
      var k :| 0 <= k < |projects| && projects[k] == p;
      assert i == k;
    }
  }

  /** Creating a project and then deleting it restores the list, provided the
      backend returned that one row under a fresh id. */
  lemma CreateThenDelete(st: PageState, user: Option<Auth.User>, row: Project)
    requires CreateRequest(st.newForm, user).Some?
    requires forall p :: p in st.projects ==> p.id != row.id
    ensures DeleteProject(CreateProject(st, user, Ok(Some([row]))), row.id, true, Ok(())).projects == st.projects
  {
    var keep := (p: Project) => p.id != row.id;
    FilterAppend(keep, [row], st.projects);
    FilterAll(keep, st.projects);
    assert [row] + st.projects == CreateProject(st, user, Ok(Some([row]))).projects;
  }
}
