/**
 * The start-up loader (frontend/src/context/LoaderContext.jsx): a map from
 * resource name to its loaded flag and progress weight, marked one name at
 * a time as the pages fetch their data, reset to the four initial
 * resources, and, in development builds, marked wholesale by a timeout.
 * `isLoading` follows the map: it is true exactly while some resource is
 * not loaded.
 */
module LoaderContext {
  import opened Common

  /** One resource: whether it has loaded and its weight in the progress
      bar. An entry created for a name the loader did not know has no
      weight. */
  datatype Resource = Resource(loaded: bool, weight: Option<real>)

  /** auth, posts, categories and user, none loaded yet. */
  function InitialResources(): (m: map<string, Resource>)
    ensures m.Keys == {"auth", "posts", "categories", "user"}
    ensures forall k :: k in m ==> !m[k].loaded && m[k].weight.Some?
  {
    map["auth" := Resource(false, Some(0.2)),
        "posts" := Resource(false, Some(0.5)),
        "categories" := Resource(false, Some(0.15)),
        "user" := Resource(false, Some(0.15))]
  }

  /** `Object.values(resources).every(resource => resource.loaded)` */
  predicate AllLoaded(m: map<string, Resource>)
  {
    forall k :: k in m ==> m[k].loaded
  }

  /** The names not loaded yet (`Object.keys(resources).filter(…)`). */
  function UnloadedKeys(m: map<string, Resource>): (r: set<string>)
    ensures r <= m.Keys
    ensures forall k :: k in m ==> (k in r <==> !m[k].loaded)
    ensures r == {} <==> AllLoaded(m)
  {
    set k | k in m && !m[k].loaded
  }

  /** `{ ...prev, [name]: { ...prev[name], loaded: true } }`: the named
      resource is loaded and keeps its weight; a name not in the map gets an
      entry of its own, loaded and without weight. */
  function Marked(m: map<string, Resource>, name: string): (r: map<string, Resource>)
    ensures r.Keys == m.Keys + {name}
    ensures r[name].loaded
    ensures name in m ==> r[name].weight == m[name].weight
    ensures name !in m ==> r[name] == Resource(true, None)
    ensures forall k :: k in m && k != name ==> r[k] == m[k]
  {
    var previous := if name in m then m[name] else Resource(false, None);
    m[name := previous.(loaded := true)]
  }

  /** Every name of `names` that the map holds is marked loaded; the rest is
      unchanged. */
  function MarkAll(m: map<string, Resource>, names: set<string>): (r: map<string, Resource>)
    ensures r.Keys == m.Keys
    ensures forall k :: k in m && k in names ==> r[k] == m[k].(loaded := true)
    ensures forall k :: k in m && k !in names ==> r[k] == m[k]
  {
    map k | k in m :: if k in names then m[k].(loaded := true) else m[k]
  }

  /** Marking a resource twice is marking it once. */
  lemma MarkedIdempotent(m: map<string, Resource>, name: string)
    ensures Marked(Marked(m, name), name) == Marked(m, name)
  {
  }

  /** The order in which two resources report does not matter. */
  lemma MarkedCommutes(m: map<string, Resource>, a: string, b: string)
    ensures Marked(Marked(m, a), b) == Marked(Marked(m, b), a)
  {
  }

  /** Marking a loaded resource changes nothing. */
  lemma MarkedLoadedUnchanged(m: map<string, Resource>, name: string)
    requires name in m && m[name].loaded
    ensures Marked(m, name) == m
  {
  }

  /** Marking does not undo what is loaded: the loaded names only grow, and
      once everything is loaded it stays so. */
  lemma MarkedKeepsLoaded(m: map<string, Resource>, name: string)
    ensures UnloadedKeys(Marked(m, name)) == UnloadedKeys(m) - {name}
    ensures AllLoaded(m) ==> AllLoaded(Marked(m, name))
  {
  }

  /** The map after the resources of `names` have reported, first to last. */
  function MarkEach(m: map<string, Resource>, names: seq<string>): (r: map<string, Resource>)
    ensures r.Keys == m.Keys + set n | n in names
    decreases |names|
  {
    if names == [] then m else MarkEach(Marked(m, names[0]), names[1..])
  }

  /** The resources still unloaded after a series of reports are those
      unloaded before that did not report. */
  lemma {:induction false} MarkEachUnloaded(m: map<string, Resource>, names: seq<string>)
    ensures UnloadedKeys(MarkEach(m, names)) == UnloadedKeys(m) - set n | n in names
    decreases |names|
  {
    if names != [] {
      MarkedKeepsLoaded(m, names[0]);
      MarkEachUnloaded(Marked(m, names[0]), names[1..]);
      assert (set n | n in names) == {names[0]} + set n | n in names[1..];
    }
  }

  /** From the initial map, loading ends exactly when each of the four
      resources has reported at least once, whatever the order, the
      repetitions or the unknown names in between. */
  lemma LoadingEndsWhenAllReported(names: seq<string>)
    ensures AllLoaded(MarkEach(InitialResources(), names)) <==>
      {"auth", "posts", "categories", "user"} <= set n | n in names
  {
    MarkEachUnloaded(InitialResources(), names);
    assert UnloadedKeys(InitialResources()) == InitialResources().Keys;
  }

  /** One step of the timeout's loop: marking one more name that the map
      holds extends the marked set by it. */
  lemma MarkAllStep(m: map<string, Resource>, done: set<string>, name: string)
    requires name in m
    ensures Marked(MarkAll(m, done), name) == MarkAll(m, done + {name})
  {
  }

  /** Marking the unloaded names leaves nothing unloaded and keeps every
      weight. */
  lemma MarkUnloadedFinishes(m: map<string, Resource>)
    ensures AllLoaded(MarkAll(m, UnloadedKeys(m)))
    ensures forall k :: k in m ==> MarkAll(m, UnloadedKeys(m))[k].weight == m[k].weight
  {
  }

  /** The provider's state. `isLoading` is kept equal to "some resource is
      not loaded" by the effect that runs after every change. */
  class Loader {
    var resources: map<string, Resource>
    var isLoading: bool

    predicate Valid()
      reads this
    {
      isLoading == !AllLoaded(resources)
    }

    /** The initial state: the four resources, none loaded, loading. */
    constructor ()
      ensures resources == InitialResources()
      ensures isLoading
      ensures Valid()
    {
      resources := InitialResources();
      isLoading := true;
      new;
      assert "auth" in resources && !resources["auth"].loaded;
    }

    /** markResourceLoaded, followed by the isLoading effect. */
    method MarkResourceLoaded(name: string)
      modifies this
      ensures resources == Marked(old(resources), name)
      ensures isLoading == !AllLoaded(resources)
      ensures Valid()
    {
      resources := Marked(resources, name);
      isLoading := !AllLoaded(resources);
    }

    /** resetLoader: back to the initial four, loading. */
    method ResetLoader()
      modifies this
      ensures resources == InitialResources()
      ensures isLoading
      ensures Valid()
    {
      resources := InitialResources();
      isLoading := true;
      assert "auth" in resources && !resources["auth"].loaded;
    }

    /** The development timeout: when some resources are still unloaded,
        each of them is marked in turn; then the isLoading effect runs.
        Afterwards everything is loaded. */
    method DevTimeout()
      modifies this
      ensures resources == MarkAll(old(resources), UnloadedKeys(old(resources)))
      ensures AllLoaded(resources) && !isLoading
      ensures Valid()
    {
      var unloaded := UnloadedKeys(resources);
      if unloaded != {} {
        ghost var prev := resources;
        var updated := resources;
        var todo := unloaded;
        ghost var done: set<string> := {};
        while todo != {}
          invariant todo + done == unloaded && todo !! done
          invariant updated == MarkAll(prev, done)
          decreases |todo|
        {
          var key :| key in todo;
          MarkAllStep(prev, done, key);
          updated := Marked(updated, key);
          todo := todo - {key};
          done := done + {key};
        }
        resources := updated;
      }
      MarkUnloadedFinishes(old(resources));
      isLoading := !AllLoaded(resources);
    }
  }
}
