/**
 * `route_resolver` and its nested `find_route`: the route table is a nested
 * dictionary whose values are either file names or further tables, walked
 * one path segment at a time.
 */
module Routing {
  import opened Outcomes
  import opened Strings

  /** A value of the route table (`Router | str`): a file name or a nested table. */
  datatype Router = Leaf(target: string) | Node(routes: map<string, Router>)

  const Slash: string := "/"

  /** `d[key]` on a dictionary: the bound value, or `KeyError`. */
  function Lookup(d: map<string, Router>, key: string): (r: Outcome<Router>)
    ensures r.Returned? <==> key in d
    ensures r.Returned? ==> r.value == d[key]
    ensures key !in d ==> r == Raised(KeyError)
  {
    if key in d then Returned(d[key]) else Raised(KeyError)
  }

  /**
   * `find_route(table, steps)`: a single segment returns whatever the table
   * binds to it; a longer path must pass through a nested table at each step.
   */
  function FindRoute(table: map<string, Router>, steps: seq<string>): (r: Outcome<Router>)
    ensures r.Returned? ==> |steps| >= 1
    ensures r.Raised? ==> r.exc == (if |steps| == 0 then IndexError else KeyError)
    ensures |steps| >= 1 && steps[0] !in table ==> r == Raised(KeyError)
    decreases |steps|
  {
    if |steps| == 1 then Lookup(table, steps[0])
    else if |steps| == 0 then Raised(IndexError)
    else if steps[0] !in table then Raised(KeyError)
    else match table[steps[0]]
      case Leaf(_) => Raised(KeyError)
      case Node(sub) => FindRoute(sub, steps[1..])
  }

  /** With one segment left, `find_route` returns what the table binds to it, leaf or subtree. */
  lemma FindRouteSingle(table: map<string, Router>, key: string)
    ensures FindRoute(table, [key]) == Lookup(table, key)
    ensures key in table ==> FindRoute(table, [key]) == Returned(table[key])
    ensures key !in table ==> FindRoute(table, [key]) == Raised(KeyError)
  {
  }

  /**
   * Walking one segment further: after a path that reached a nested table the
   * next segment is looked up in it; after a file name (an over-specified
   * path) or a failure, every longer path fails with `KeyError`.
   */
  lemma {:induction false} FindRouteAppend(table: map<string, Router>, steps: seq<string>, s: string)
    requires |steps| >= 1
    ensures FindRoute(table, steps + [s]) ==
              match FindRoute(table, steps)
              case Returned(Node(m)) => if s in m then Returned(m[s]) else Raised(KeyError)
              case Returned(Leaf(_)) => Raised(KeyError)
              case Raised(_) => Raised(KeyError)
    decreases |steps|
  {
    var longer := steps + [s];
    assert longer[0] == steps[0];
    if |steps| == 1 {
      assert longer[1..] == [s];
    } else if steps[0] in table && table[steps[0]].Node? {
      assert longer[1..] == steps[1..] + [s];
      FindRouteAppend(table[steps[0]].routes, steps[1..], s);
    }
  }

  /** Once a path reaches a file name, any longer path is over-specified. */
  lemma {:induction false} OverSpecifiedPath(table: map<string, Router>, steps: seq<string>, more: seq<string>)
    requires |steps| >= 1 && |more| >= 1
    requires FindRoute(table, steps).Returned? && FindRoute(table, steps).value.Leaf?
    ensures FindRoute(table, steps + more) == Raised(KeyError)
    decreases |more|
  {
    FindRouteAppend(table, steps, more[0]);
    if |more| == 1 {
      assert steps + [more[0]] == steps + more;
    } else {
      FailurePersists(table, steps + [more[0]], more[1..]);
      assert steps + [more[0]] + more[1..] == steps + more;
    }
  }

  /** A path that fails keeps failing however it is extended. */
  lemma {:induction false} FailurePersists(table: map<string, Router>, steps: seq<string>, more: seq<string>)
    requires |steps| >= 1
    requires FindRoute(table, steps).Raised?
    ensures FindRoute(table, steps + more) == Raised(KeyError)
    decreases |more|
  {
    if |more| == 0 {
      assert steps + more == steps;
    } else {
      FindRouteAppend(table, steps, more[0]);
      FailurePersists(table, steps + [more[0]], more[1..]);
      assert steps + [more[0]] + more[1..] == steps + more;
    }
  }

  /**
   * `route_resolver(path, table)` as written: `path.split("/")` is never
   * empty, so the root branch is dead, and `find_route` is defined but never
   * called, so the function returns `None` whatever the path and table.
   */
  function RouteResolver(path: string, table: map<string, Router>): (r: Outcome<Option<Router>>)
    ensures r == Returned(None)
  {
    var steps := Split(path, Slash);
    if |steps| == 0 then
      match Lookup(table, "index")
      case Returned(v) => Returned(Some(v))
      case Raised(e) => Raised(e)
    else
      Returned(None)
  }

  /**
   * `route_resolver` as evidently intended: the path's segments are walked
   * through the table. It never indexes an empty list.
   */
  function ResolveRoute(path: string, table: map<string, Router>): (r: Outcome<Router>)
    ensures r.Raised? ==> r.exc == KeyError
    ensures Split(path, Slash)[0] !in table ==> r == Raised(KeyError)
  {
    FindRoute(table, Split(path, Slash))
  }

  /**
   * The corrected resolver walks exactly the segments of the path: for
   * segments without `/`, resolving them joined by `/` is `find_route` on them.
   */
  lemma {:induction false} ResolveRouteWalksSegments(segments: seq<string>, table: map<string, Router>)
    requires |segments| >= 1
    requires forall i :: 0 <= i < |segments| ==> Free(segments[i], Slash)
    ensures ResolveRoute(Join(segments, Slash), table) == FindRoute(table, segments)
  {
    SeparatorsDoNotOverlap();
    SplitJoin(segments, Slash);
  }

  /** A path without `/` that the table binds resolves to the bound value. */
  lemma ResolveSingleSegment(path: string, table: map<string, Router>)
    requires Free(path, Slash)
    ensures path in table ==> ResolveRoute(path, table) == Returned(table[path])
    ensures path !in table ==> ResolveRoute(path, table) == Raised(KeyError)
  {
    ResolveRouteWalksSegments([path], table);
    FindRouteSingle(table, path);
  }

  /**
   * A path such as `/about` starts with an empty segment: it is looked up
   * first, and unless the table binds `""` the lookup fails.
   */
  lemma LeadingSlash(rest: string, table: map<string, Router>)
    ensures Split(Slash + rest, Slash)[0] == ""
    ensures "" !in table ==> ResolveRoute(Slash + rest, table) == Raised(KeyError)
  {
  }

  /** A table with an `index` file: the written resolver drops what `find_route` finds. */
  lemma RouteResolverDropsRoute()
    ensures ResolveRoute("index", map["index" := Leaf("index.html")]) == Returned(Leaf("index.html"))
    ensures RouteResolver("index", map["index" := Leaf("index.html")]) == Returned(None)
  {
    NoLeadFree("index", Slash);
    ResolveSingleSegment("index", map["index" := Leaf("index.html")]);
  }
}
