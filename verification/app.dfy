/** The application state of the documentation browser: the navigation
    structure, the topic on display, the colour theme and its stored copy, and
    the URL hash, with the operations that change them. */
module App {
  import opened Wrappers
  import opened Catalog

  // ---------------------------------------------------------------------
  // Theme

  /** The theme `toggleTheme` switches to: "dark" from "light", and "light"
      from anything else, an absent theme included. */
  function ToggledTheme(current: Option<string>): (next: string)
    ensures next == "light" || next == "dark"
    ensures next == "dark" <==> current == Some("light")
  {
    if current == Some("light") then "dark" else "light"
  }

  /** The theme `initTheme` applies: the stored one unless it is missing or
      empty, and "light" then. */
  function InitialTheme(stored: Option<string>): (theme: string)
    ensures theme != ""
    ensures stored.Some? && stored.value != "" ==> theme == stored.value
    ensures stored.None? || stored == Some("") ==> theme == "light"
  {
    if stored.Some? && stored.value != "" then stored.value else "light"
  }

  /** Toggling is a two-state machine: twice is the identity on its states. */
  lemma ToggleTwice(t: string)
    requires t == "light" || t == "dark"
    ensures ToggledTheme(Some(ToggledTheme(Some(t)))) == t
  {
  }

  /** The theme a toggle stores is the theme the next start-up applies. */
  lemma ToggleSurvivesReload(current: Option<string>)
    ensures InitialTheme(Some(ToggledTheme(current))) == ToggledTheme(current)
  {
  }

  // ---------------------------------------------------------------------
  // Hash routing

  /** `location.hash.slice(1)`: the hash without its leading '#'. */
  function HashBody(hash: string): (body: string)
    ensures hash != "" ==> hash == [hash[0]] + body
    ensures hash == "" ==> body == ""
  {
    if hash == "" then "" else hash[1..]
  }

  /** The topic `handleHashChange` loads: the hash body, when it is non-empty
      and there is a structure to look it up in. */
  function HashTarget(hash: string, structure: seq<Chapter>): (target: Option<string>)
    ensures target.Some? <==> |hash| > 1 && |structure| > 0
    ensures target.Some? ==> hash == [hash[0]] + target.value
  {
    var body := HashBody(hash);
    if body != "" && |structure| > 0 then Some(body) else None
  }

  /** What `startApp` does once the structure is built. */
  datatype StartAction = FollowHash | OpenFirst(id: string) | StayIdle

  function StartRoute(hash: string, structure: seq<Chapter>): (action: StartAction)
    ensures action.OpenFirst? <==> hash == "" && |structure| > 0 && |structure[0].topics| > 0
    ensures action.OpenFirst? ==> action.id == structure[0].topics[0].id
    ensures action == FollowHash <==> hash != ""
  {
    if hash != "" then FollowHash
    else if |structure| > 0 && |structure[0].topics| > 0 then OpenFirst(structure[0].topics[0].id)
    else StayIdle
  }

  /** The topic opened at start-up is found by the lookup, as itself. */
  lemma OpenFirstIsFound(structure: seq<Chapter>)
    requires |structure| > 0 && |structure[0].topics| > 0
    ensures FirstTopic(structure, structure[0].topics[0].id) == Some(structure[0].topics[0])
  {
  }

  /** The hash that start-up writes for the first topic routes back to that
      same topic when the resulting hash change is handled. */
  lemma OpenFirstHashRoutesBack(structure: seq<Chapter>)
    requires WellFormed(structure)
    requires StartRoute("", structure).OpenFirst?
    ensures HashTarget("#" + StartRoute("", structure).id, structure) == Some(StartRoute("", structure).id)
  {
    var id := StartRoute("", structure).id;
    assert WellFormedTopic(structure[0].topics[0]);
    assert ("#" + id)[1..] == id;
  }

  // ---------------------------------------------------------------------
  // Loading a topic

  /** How `loadTopic` ends: the id is in no chapter; its file could not be
      fetched or parsed; or it was rendered and became the current topic. */
  datatype LoadOutcome = TopicNotFound | FetchFailed(path: string) | Loaded(path: string)

  /** A topic found by the lookup in a well-formed structure has a non-empty
      path, so the source's falsy-path test fails exactly when nothing was found. */
  lemma FoundPathNonEmpty(structure: seq<Chapter>, id: string)
    requires WellFormed(structure)
    requires FirstTopic(structure, id).Some?
    ensures FirstTopic(structure, id).value.path != ""
    ensures HasTopic(structure, id)
  {
    var t := FirstTopic(structure, id).value;
    FirstTopicNone(structure, id);
    FirstTopicIsFirst(structure, id);
    var i :| 0 <= i < |structure| && FindTopic(structure[i].topics, id) == Some(t);
    var j :| 0 <= j < |structure[i].topics| && structure[i].topics[j] == t;
    assert WellFormedTopic(structure[i].topics[j]);
  }

  class DocsApp {
    /** `docsStructure`. */
    var docsStructure: seq<Chapter>
    /** `currentTopic`; `None` for null. */
    var currentTopic: Option<string>
    /** `document.documentElement.dataset.theme`; `None` until set. */
    var theme: Option<string>
    /** The "theme" entry of local storage; `None` when absent. */
    var stored: Option<string>
    /** `location.hash`, with its '#'. */
    var hash: string

    /** The structure is well formed and the current topic, once set, is one
        of its topics. */
    ghost predicate Valid()
      reads this
    {
      WellFormed(docsStructure) &&
      (currentTopic.Some? ==> HasTopic(docsStructure, currentTopic.value))
    }

    /** The page as it is first loaded: no structure, no topic, no theme yet. */
    constructor (storedTheme: Option<string>, initialHash: string)
      ensures Valid()
      ensures docsStructure == [] && currentTopic == None && theme == None
      ensures stored == storedTheme && hash == initialHash
    {
      docsStructure := [];
      currentTopic := None;
      theme := None;
      stored := storedTheme;
      hash := initialHash;
    }

    /** `initTheme`. */
    method InitTheme()
      modifies this`theme
      ensures theme == Some(InitialTheme(stored))
    {
      theme := Some(InitialTheme(stored));
    }

    /** `toggleTheme`: switches the theme and stores the new one. */
    method ToggleTheme()
      modifies this`theme, this`stored
      ensures theme == Some(ToggledTheme(old(theme)))
      ensures stored == theme
    {
      var newTheme := ToggledTheme(theme);
      theme := Some(newTheme);
      stored := Some(newTheme);
    }

    /** `loadTopic`: looks the id up; when found and fetched, it becomes the
        current topic; otherwise the current topic is left as it was. */
    method LoadTopic(topicId: string, fetchOk: bool) returns (outcome: LoadOutcome)
      requires Valid()
      modifies this`currentTopic
      ensures Valid()
      ensures outcome.TopicNotFound? <==> !HasTopic(docsStructure, topicId)
      ensures !outcome.TopicNotFound? ==>
        FirstTopic(docsStructure, topicId).Some? && outcome.path == FirstTopic(docsStructure, topicId).value.path
      ensures outcome.Loaded? <==> HasTopic(docsStructure, topicId) && fetchOk
      ensures currentTopic == if outcome.Loaded? then Some(topicId) else old(currentTopic)
    {
      var topicPath := FindTopicPath(docsStructure, topicId);
      if topicPath.Some? {
        FoundPathNonEmpty(docsStructure, topicId);
      }
      if topicPath.None? || topicPath.value == "" {
        return TopicNotFound;
      }
      if !fetchOk {
        return FetchFailed(topicPath.value);
      }
      currentTopic := Some(topicId);
      outcome := Loaded(topicPath.value);
    }

    /** `handleHashChange`: loads the topic the hash names, if any. */
    method HandleHashChange(fetchOk: bool) returns (outcome: Option<LoadOutcome>)
      requires Valid()
      modifies this`currentTopic
      ensures Valid()
      ensures outcome.Some? <==> HashTarget(hash, docsStructure).Some?
      ensures outcome.None? ==> currentTopic == old(currentTopic)
      ensures outcome.Some? ==>
        var target := HashTarget(hash, docsStructure).value;
        (outcome.value.Loaded? <==> HasTopic(docsStructure, target) && fetchOk) &&
        currentTopic == if outcome.value.Loaded? then Some(target) else old(currentTopic)
    {
      var body := HashBody(hash);
      if body != "" && |docsStructure| > 0 {
        var loaded := LoadTopic(body, fetchOk);
        outcome := Some(loaded);
      } else {
        outcome := None;
      }
    }

    /** `startApp`: applies the theme, builds the structure, then follows the
        hash or, without one, opens the first topic and writes its id into
        the hash. */
    method StartApp(metadata: seq<ChapterMeta>, topicMap: TopicMap, fetchOk: bool)
      returns (outcome: Option<LoadOutcome>)
      requires currentTopic.None?
      modifies this
      ensures Valid()
      ensures docsStructure == DocsStructure(metadata, topicMap)
      ensures theme == Some(InitialTheme(stored)) && stored == old(stored)
      ensures match StartRoute(old(hash), docsStructure)
        case FollowHash =>
          hash == old(hash) &&
          (outcome.Some? <==> HashTarget(hash, docsStructure).Some?) &&
          (outcome.None? ==> currentTopic.None?) &&
          (outcome.Some? ==>
            var target := HashTarget(hash, docsStructure).value;
            (outcome.value.Loaded? <==> HasTopic(docsStructure, target) && fetchOk) &&
            currentTopic == (if outcome.value.Loaded? then Some(target) else None))
        case OpenFirst(id) =>
          hash == "#" + id && outcome.Some? && !outcome.value.TopicNotFound? &&
          currentTopic == (if fetchOk then Some(id) else None)
        case StayIdle =>
          hash == old(hash) && outcome.None? && currentTopic.None?
    {
      InitTheme();
      var structure := FetchDocsStructure(metadata, topicMap);
      docsStructure := structure;
      if hash != "" {
        outcome := HandleHashChange(fetchOk);
      } else if |docsStructure| > 0 && |docsStructure[0].topics| > 0 {
        var firstTopic := docsStructure[0].topics[0];
        OpenFirstIsFound(docsStructure);
        var loaded := LoadTopic(firstTopic.id, fetchOk);
        outcome := Some(loaded);
        hash := "#" + firstTopic.id;
      } else {
        outcome := None;
      }
    }
  }
}
