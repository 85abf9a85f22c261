/** Reachability in the cleanup audit of scripts/repo_cleanup_audit.py: a work-list traversal of a
    possibly cyclic import graph, and the split of the source files it decides. */
module CleanupAudit {

  type File = string

  type Graph = map<File, set<File>>

  datatype Result<T> = Ok(value: T) | ConfigError(message: string)

  datatype Report = Report(reachable: set<File>, unreachable: set<File>, entrypoints: set<File>)

  /** `graph.get(file, [])`. */
  function Imports(g: Graph, file: File): set<File> {
    if file in g then g[file] else {}
  }

  ghost predicate IsPath(g: Graph, path: seq<File>) {
    path != [] && forall i :: 0 <= i < |path| - 1 ==> path[i+1] in Imports(g, path[i])
  }

  ghost predicate PathTo(g: Graph, starts: set<File>, file: File, path: seq<File>) {
    IsPath(g, path) && path[0] in starts && path[|path| - 1] == file
  }

  ghost predicate Reachable(g: Graph, starts: set<File>, file: File) {
    exists path :: PathTo(g, starts, file, path)
  }

  lemma StartReachable(g: Graph, starts: set<File>, file: File)
    requires file in starts
    ensures Reachable(g, starts, file)
  {
    assert PathTo(g, starts, file, [file]);
  }

  lemma ImportReachable(g: Graph, starts: set<File>, file: File, next: File)
    requires Reachable(g, starts, file) && next in Imports(g, file)
    ensures Reachable(g, starts, next)
  {
    var path :| PathTo(g, starts, file, path);
    assert PathTo(g, starts, next, path + [next]);
  }

  ghost predicate Closed(g: Graph, files: set<File>) {
    forall file, next :: file in files && next in Imports(g, file) ==> next in files
  }

  /** A set closed under imports that holds the starts holds everything reachable. */
  lemma {:induction false} PathStaysInside(g: Graph, files: set<File>, path: seq<File>)
    requires Closed(g, files) && IsPath(g, path) && path[0] in files
    ensures path[|path| - 1] in files
  {
    if |path| > 1 {
      assert path[1] in Imports(g, path[0]);
      assert forall i :: 0 <= i < |path[1..]| - 1 ==> path[1..][i+1] in Imports(g, path[1..][i]) by {
        forall i | 0 <= i < |path[1..]| - 1 ensures path[1..][i+1] in Imports(g, path[1..][i]) {
          assert path[i+1+1] in Imports(g, path[i+1]);
        }
      }
      PathStaysInside(g, files, path[1..]);
    }
  }

  lemma ClosedHoldsReachable(g: Graph, starts: set<File>, files: set<File>, file: File)
    requires Closed(g, files) && starts <= files && Reachable(g, starts, file)
    ensures file in files
  {
    var path :| PathTo(g, starts, file, path);
    PathStaysInside(g, files, path);
  }

  /** `list(s)` in some order. */
  method ListOf(s: set<File>) returns (r: seq<File>)
    ensures forall x :: x in r <==> x in s
    ensures |r| == |s|
  {
    r := [];
    var left := s;
    while left != {}
      invariant forall x :: x in s <==> x in r || x in left
      invariant left <= s && |r| + |left| == |s|
      decreases left
    {
      var x :| x in left;
      r := r + [x];
      left := left - {x};
    }
  }

  function Mentioned(g: Graph, starts: set<File>): set<File> {
    starts + set file, next | file in g && next in g[file] :: next
  }

  /** Everything on the stack or visited is reachable, and the imports of what was visited are on the
      stack or visited themselves. */
  ghost predicate Frontier(g: Graph, starts: set<File>, visited: set<File>, stack: seq<File>) {
    && (forall file :: file in visited || file in stack ==> Reachable(g, starts, file) && file in Mentioned(g, starts))
    && (forall file :: file in starts ==> file in visited || file in stack)
    && (forall file, next :: file in visited && next in Imports(g, file) ==> next in visited || next in stack)
  }

  lemma Expand(g: Graph, starts: set<File>, visited: set<File>, stack: seq<File>, more: seq<File>)
    requires stack != [] && Frontier(g, starts, visited, stack)
    requires forall x :: x in more <==> x in Imports(g, stack[|stack| - 1])
    ensures Frontier(g, starts, visited + {stack[|stack| - 1]}, stack[..|stack| - 1] + more)
  {
    var current, rest := stack[|stack| - 1], stack[..|stack| - 1];
    assert stack == rest + [current];
    forall file | file in more ensures Reachable(g, starts, file) && file in Mentioned(g, starts) {
      ImportReachable(g, starts, current, file);
    }
  }

  lemma Begin(g: Graph, starts: set<File>, stack: seq<File>)
    requires forall x :: x in stack <==> x in starts
    ensures Frontier(g, starts, {}, stack)
  {
    forall file | file in stack ensures Reachable(g, starts, file) { StartReachable(g, starts, file); }
  }

  lemma Skip(g: Graph, starts: set<File>, visited: set<File>, stack: seq<File>)
    requires stack != [] && Frontier(g, starts, visited, stack) && stack[|stack| - 1] in visited
    ensures Frontier(g, starts, visited, stack[..|stack| - 1])
  {
    hide Reachable, Mentioned, Imports;
    assert stack == stack[..|stack| - 1] + [stack[|stack| - 1]];
  }

  lemma TopMentioned(g: Graph, starts: set<File>, visited: set<File>, stack: seq<File>)
    requires stack != [] && Frontier(g, starts, visited, stack)
    ensures stack[|stack| - 1] in Mentioned(g, starts)
  {
  }

  lemma Finish(g: Graph, starts: set<File>, visited: set<File>)
    requires Frontier(g, starts, visited, [])
    ensures forall file :: file in visited <==> Reachable(g, starts, file)
  {
    forall file | Reachable(g, starts, file) ensures file in visited {
      ClosedHoldsReachable(g, starts, visited, file);
    }
  }

  method TraverseReachable(g: Graph, starts: set<File>) returns (visited: set<File>)
    ensures forall file :: file in visited <==> Reachable(g, starts, file)
  {
    hide Frontier, Mentioned, Reachable, Imports;
    visited := {};
    var stack := ListOf(starts);
    Begin(g, starts, stack);
    while stack != []
      invariant Frontier(g, starts, visited, stack)
      decreases Mentioned(g, starts) - visited, |stack|
    {
      var current := stack[|stack| - 1];
      TopMentioned(g, starts, visited, stack);
      if current in visited {
        Skip(g, starts, visited, stack);
        stack := stack[..|stack| - 1];
        continue;
      }
      var more := ListOf(Imports(g, current));
      Expand(g, starts, visited, stack, more);
      visited := visited + {current};
      stack := stack[..|stack| - 1] + more;
    }
    Finish(g, starts, visited);
  }

  /** The graph maps every source file to imports that are source files. */
  ghost predicate IsImportGraph(g: Graph) {
    forall file :: file in g ==> g[file] <= g.Keys
  }

  method Analyze(g: Graph, entrypoints: set<File>, protectedFiles: set<File>) returns (r: Result<Report>)
    requires IsImportGraph(g) && entrypoints <= g.Keys && protectedFiles <= g.Keys
    ensures r.Ok? <==> entrypoints != {}
    ensures r.Ok? ==>
              && r.value.entrypoints == entrypoints
              && (forall file :: file in r.value.reachable <==> Reachable(g, entrypoints + protectedFiles, file))
              && r.value.reachable !! r.value.unreachable
              && r.value.reachable + r.value.unreachable == g.Keys
              && entrypoints + protectedFiles <= r.value.reachable
              && (forall file :: file in r.value.reachable ==> Imports(g, file) !! r.value.unreachable)
  {
    if entrypoints == {} {
      return ConfigError("No valid entrypoints found in config.");
    }
    var starts := entrypoints + protectedFiles;
    var visited := TraverseReachable(g, starts);
    forall file | file in starts ensures file in visited { StartReachable(g, starts, file); }
    forall file | file in visited ensures file in g { ClosedHoldsReachable(g, starts, g.Keys, file); }
    var reachable := visited + protectedFiles + entrypoints;
    assert reachable == visited;
    forall file, next | file in reachable && next in Imports(g, file) ensures next in reachable {
      ImportReachable(g, starts, file, next);
    }
    r := Ok(Report(reachable, g.Keys - reachable, entrypoints));
  }

  /** Quarantining every unreachable file leaves the reachable set, and what it imports, as they were. */
  lemma QuarantineIsSafe(g: Graph, starts: set<File>, kept: set<File>, file: File)
    requires forall f :: f in kept <==> Reachable(g, starts, f)
    ensures Reachable(map f | f in g && f in kept :: g[f], starts, file) <==> Reachable(g, starts, file)
  {
    var smaller: Graph := map f | f in g && f in kept :: g[f];
    if Reachable(smaller, starts, file) {
      var path :| PathTo(smaller, starts, file, path);
      assert PathTo(g, starts, file, path) by {
        forall i | 0 <= i < |path| - 1 ensures path[i+1] in Imports(g, path[i]) {
          assert path[i+1] in Imports(smaller, path[i]);
        }
      }
    }
    if Reachable(g, starts, file) {
      var path :| PathTo(g, starts, file, path);
      forall i | 0 <= i < |path| - 1 ensures path[i+1] in Imports(smaller, path[i]) {
        assert path[i+1] in Imports(g, path[i]);
        PrefixReachable(g, starts, path, i);
      }
      assert PathTo(smaller, starts, file, path);
    }
  }

  lemma PrefixReachable(g: Graph, starts: set<File>, path: seq<File>, i: nat)
    requires IsPath(g, path) && path[0] in starts && i < |path|
    ensures Reachable(g, starts, path[i])
  {
    var prefix := path[..i+1];
    assert forall k :: 0 <= k < |prefix| - 1 ==> prefix[k+1] in Imports(g, prefix[k]) by {
      forall k | 0 <= k < |prefix| - 1 ensures prefix[k+1] in Imports(g, prefix[k]) {
        assert path[k+1] in Imports(g, path[k]);
      }
    }
    assert PathTo(g, starts, path[i], prefix);
  }
}
