/** Values shared by both graph engines: scheduler descriptors, edges,
    scheduler labels, and the helpers that stand for Python's dict and set
    iteration. */
module Types {

  datatype Option<+T> = None | Some(value: T)

  /** A directed edge (source, destination) between two node labels. */
  type Edge = (string, string)

  /** A scheduler as read from a buildbot configuration. The three upstream
      relations are independent attributes; an empty string or an empty
      sequence stands for an attribute that is absent (or falsy). */
  datatype Scheduler = Scheduler(
    name: string,
    builderNames: seq<string>,
    trigger: bool,
    upstreamName: string,
    upstreamBuilders: seq<string>)

  /** The node label of a scheduler: its name followed by " scheduler", so
      that it cannot clash with a builder of the same name. */
  function Label(name: string): string
  {
    name + " scheduler"
  }

  /** Distinct scheduler names give distinct labels. */
  lemma LabelInjective(a: string, b: string)
    ensures Label(a) == Label(b) <==> a == b
  {
    if Label(a) == Label(b) {
      assert |a| == |b|;
      assert a == Label(a)[..|a|];
      assert b == Label(b)[..|b|];
    }
  }

  /** The labels of all schedulers of `ss`. */
  function Labels(ss: seq<Scheduler>): set<string>
  {
    set s | s in ss :: Label(s.name)
  }

  function Elems<T>(s: seq<T>): set<T>
  {
    set x | x in s
  }

  predicate NoDup<T(==)>(s: seq<T>)
  {
    forall i, j | 0 <= i < j < |s| :: s[i] != s[j]
  }

  /** `order` lists every element of `keys` exactly once: the iteration order
      of a Python dict or set, which the program does not fix. */
  predicate Enumerates<T(==)>(order: seq<T>, keys: set<T>)
  {
    NoDup(order) && Elems(order) == keys
  }

  /** Reading a `defaultdict(list)`: a missing key reads as the empty list. */
  function Lookup<T>(m: map<string, seq<T>>, k: string): seq<T>
  {
    if k in m then m[k] else []
  }
}
