/** The server's shared session state (Server.py): `client_counter`, the `cache` of every
    client ever connected and the `active_clients` set, all guarded by `state_lock`.

    Each `with state_lock:` region is one method of `Registry`, so it is atomic. The
    `cache` dict is kept as its keys in insertion order (`order`) and a map from each key
    to its entry; that is the order in which `cache.items()` visits it. Timestamps from
    `now_iso()` and the peer address `str(addr)` are opaque strings. */
module Registry {
  import opened Text

  /** One `cache` value: `{"accepted": ..., "finished": ..., "addr": ...}`. */
  datatype Entry = Entry(accepted: string, finished: Option<string>, addr: string)

  /** Everything `state_lock` guards, as one value. */
  datatype State = State(counter: nat, order: seq<string>, cache: map<string, Entry>, active: set<string>)

  /** `f"Client{k:02d}"`. */
  function ClientName(k: nat): string {
    "Client" + Pad2(k)
  }

  lemma PrefixCancel(p: string, x: string, y: string)
    requires p + x == p + y
    ensures x == y
  {
    assert x == (p + x)[|p|..];
    assert y == (p + y)[|p|..];
  }

  /** Distinct counter values give distinct names. */
  lemma ClientNameInjective(m: nat, n: nat)
    requires ClientName(m) == ClientName(n)
    ensures m == n
  {
    PrefixCancel("Client", Pad2(m), Pad2(n));
    Pad2Injective(m, n);
  }

  /** What holds of the guarded state between lock regions: the counter is the number of
      registrations so far, the k-th key of `cache` (from 1) is the k-th name handed out,
      and every active client has an entry. */
  ghost predicate Invariant(st: State) {
    && |st.order| == st.counter
    && (forall i :: 0 <= i < |st.order| ==> st.order[i] == ClientName(i + 1))
    && (forall n :: n in st.cache <==> n in st.order)
    && st.active <= st.cache.Keys
  }

  /** Every key in the insertion order has an entry: what listing `cache.items()` needs. */
  ghost predicate Listed(st: State) {
    forall n :: n in st.order ==> n in st.cache
  }

  /** The state before any client connected. */
  function Initial(): State {
    State(0, [], map[], {})
  }

  /** The name the next registration hands out. */
  function NextName(st: State): string {
    ClientName(st.counter + 1)
  }

  /** The registration region of `handle_client` (Server.py:117-121). */
  function Registered(st: State, accepted: string, addr: string): State {
    var name := NextName(st);
    State(st.counter + 1, st.order + [name], st.cache[name := Entry(accepted, None, addr)],
          st.active + {name})
  }

  /** The cleanup region of `handle_client` (Server.py:203-207): the name leaves the
      active set and its entry, if any, gets `finished`, whatever it held before. */
  function Finished(st: State, name: string, finished: string): State {
    var cache := if name in st.cache then st.cache[name := st.cache[name].(finished := Some(finished))]
                 else st.cache;
    State(st.counter, st.order, cache, st.active - {name})
  }

  lemma InitialInvariant()
    ensures Invariant(Initial())
  {
  }

  /** Under the invariant no name is handed out twice. */
  lemma {:induction false} NamesDistinct(st: State)
    requires Invariant(st)
    ensures forall i, j :: 0 <= i < j < |st.order| ==> st.order[i] != st.order[j]
    ensures NextName(st) !in st.cache
  {
    forall i, j | 0 <= i < j < |st.order| ensures st.order[i] != st.order[j] {
      if st.order[i] == st.order[j] {
        ClientNameInjective(i + 1, j + 1);
      }
    }
    if NextName(st) in st.cache {
      var i :| 0 <= i < |st.order| && st.order[i] == NextName(st);
      ClientNameInjective(i + 1, st.counter + 1);
    }
  }

  /** Registration takes the counter up by one and hands out `Client<counter>`, a name
      no earlier client had; the new entry is unfinished and active; every entry that was
      there is still there, unchanged, and the invariant is kept. */
  lemma RegisteredFacts(st: State, accepted: string, addr: string)
    requires Invariant(st)
    ensures var r := Registered(st, accepted, addr);
      var name := NextName(st);
      && Invariant(r)
      && r.counter == st.counter + 1 && name == ClientName(r.counter)
      && name !in st.cache && name !in st.active
      && r.cache[name] == Entry(accepted, None, addr) && name in r.active
      && r.order == st.order + [name]
      && (forall n :: n in st.cache ==> n in r.cache && r.cache[n] == st.cache[n])
      && r.cache.Keys == st.cache.Keys + {name}
      && r.active == st.active + {name}
  {
    NamesDistinct(st);
    var r := Registered(st, accepted, addr);
    var name := NextName(st);
    assert r.order == st.order + [name] && r.order[|st.order|] == name;
    forall i | 0 <= i < |r.order| ensures r.order[i] == ClientName(i + 1) {
      if i < |st.order| {
        assert r.order[i] == st.order[i];
      }
    }
    forall n ensures n in r.cache <==> n in r.order {
      assert n in r.order <==> n in st.order || n == name;
    }
  }

  /** Cleanup removes the name from the active set and stamps its entry; the entry is
      kept, its other fields and every other entry are unchanged, and the invariant is
      kept. */
  lemma FinishedFacts(st: State, name: string, finished: string)
    requires Invariant(st)
    ensures var r := Finished(st, name, finished);
      && Invariant(r)
      && name !in r.active && r.active == st.active - {name}
      && r.cache.Keys == st.cache.Keys && r.order == st.order && r.counter == st.counter
      && (name in st.cache ==>
            r.cache[name] == Entry(st.cache[name].accepted, Some(finished), st.cache[name].addr))
      && (forall n :: n in st.cache && n != name ==> r.cache[n] == st.cache[n])
  {
  }

  /** A session's cleanup undoes its registration on the active set and leaves the new
      entry finished. */
  lemma SessionFacts(st: State, accepted: string, addr: string, finished: string)
    requires Invariant(st)
    ensures var name := NextName(st);
      var r := Finished(Registered(st, accepted, addr), name, finished);
      && Invariant(r)
      && r.counter == st.counter + 1
      && r.active == st.active
      && r.cache == st.cache[name := Entry(accepted, Some(finished), addr)]
  {
    var name := NextName(st);
    var mid := Registered(st, accepted, addr);
    RegisteredFacts(st, accepted, addr);
    FinishedFacts(mid, name, finished);
    SessionCache(st, accepted, addr, finished);
  }

  lemma SessionCache(st: State, accepted: string, addr: string, finished: string)
    ensures var name := NextName(st);
      var r := Finished(Registered(st, accepted, addr), name, finished);
      r.cache == st.cache[name := Entry(accepted, Some(finished), addr)]
  {
    var name := NextName(st);
    var mid := Registered(st, accepted, addr);
    var r := Finished(mid, name, finished);
    assert mid.cache[name] == Entry(accepted, None, addr);
    assert r.cache == mid.cache[name := Entry(accepted, Some(finished), addr)];
  }

  // ----- the `status` and `who` replies, built from a snapshot -----

  /** `str(info['finished'])`. */
  function FinishedText(f: Option<string>): string {
    match f
    case None => "None"
    case Some(t) => t
  }

  /** `f"{c:<10} {a:<19} {f:<19} {ainfo}"`. */
  function StatusRow(c: string, a: string, f: string, addr: string): string {
    PadRight(c, 10) + " " + PadRight(a, 19) + " " + PadRight(f, 19) + " " + addr
  }

  /** The column titles of the `status` table. */
  function StatusTitle(): string {
    StatusRow("CLIENT", "ACCEPTED", "FINISHED", "ADDR")
  }

  /** The row `status` shows for the entry `e` of client `n`. */
  function EntryRow(n: string, e: Entry): string {
    StatusRow(n, e.accepted, FinishedText(e.finished), e.addr)
  }

  /** The row of each `cache` entry, in insertion order. */
  function StatusRows(st: State): (rows: seq<string>)
    requires Listed(st)
  {
    seq(|st.order|, i requires 0 <= i < |st.order| => EntryRow(st.order[i], st.cache[st.order[i]]))
  }

  /** The lines `status` sends. */
  function StatusLines(st: State): seq<string>
    requires Listed(st)
  {
    ["STATUS BEGIN", StatusTitle()] + StatusRows(st) + ["STATUS END"]
  }

  /** One row per client ever registered, the first registered first, each showing
      that client's entry. */
  lemma StatusRowsFacts(st: State)
    requires Invariant(st)
    ensures var rows := StatusRows(st);
      && |rows| == st.counter
      && forall i :: 0 <= i < |rows| ==>
           var n := st.order[i];
           n == ClientName(i + 1) && rows[i] == EntryRow(n, st.cache[n])
  {
  }

  /** The text after `WHO `: the active names sorted and joined by `, `, or `<none>`. */
  function WhoNames(active: set<string>): string {
    if active == {} then "<none>" else Join(SortedNames(active), ", ")
  }

  /** The line `who` sends. */
  function WhoLine(active: set<string>): string {
    "WHO " + WhoNames(active)
  }

  lemma JoinFirst(xs: seq<string>, sep: string)
    requires xs != [] && xs[0] != []
    ensures Join(xs, sep) != [] && Join(xs, sep)[0] == xs[0][0]
  {
  }

  /** `who` lists exactly the active names, each once and in increasing order, and says
      `<none>` exactly when nobody is active. */
  lemma WhoFacts(st: State)
    requires Invariant(st)
    ensures WhoNames(st.active) == "<none>" <==> st.active == {}
    ensures |SortedNames(st.active)| == |st.active|
    ensures forall x :: x in st.active <==> x in SortedNames(st.active)
    ensures forall i, j :: 0 <= i < j < |SortedNames(st.active)| ==>
      Below(SortedNames(st.active)[i], SortedNames(st.active)[j])
  {
    SortedNamesSorted(st.active);
    if st.active != {} {
      var xs := SortedNames(st.active);
      assert xs[0] in st.active;
      var k :| 0 <= k < |st.order| && st.order[k] == xs[0];
      assert xs[0] == "Client" + Pad2(k + 1);
      assert xs[0][0] == 'C';
      JoinFirst(xs, ", ");
    }
  }

  class Registry {
    var counter: nat
    var order: seq<string>
    var cache: map<string, Entry>
    var active: set<string>

    function Abs(): State
      reads this
    {
      State(counter, order, cache, active)
    }

    ghost predicate Valid()
      reads this
    {
      Invariant(Abs())
    }

    constructor ()
      ensures Abs() == Initial() && Valid()
    {
      counter := 0;
      order := [];
      cache := map[];
      active := {};
    }

    /** The registration region: `client_counter += 1`, the name, `active_clients.add`,
        the new `cache` entry. */
    method Register(accepted: string, addr: string) returns (name: string)
      requires Valid()
      modifies this
      ensures name == NextName(old(Abs())) && name !in old(cache)
      ensures Abs() == Registered(old(Abs()), accepted, addr) && Valid()
    {
      ghost var st := Abs();
      RegisteredFacts(st, accepted, addr);
      counter := counter + 1;
      name := "Client" + Pad2(counter);
      assert name == NextName(st);
      active := active + {name};
      order := order + [name];
      cache := cache[name := Entry(accepted, None, addr)];
      assert Abs() == Registered(st, accepted, addr);
    }

    /** The cleanup region: remove the name from `active_clients` if there, and stamp its
        entry if there. */
    method Finish(name: string, finished: string)
      requires Valid()
      modifies this
      ensures Abs() == Finished(old(Abs()), name, finished) && Valid()
    {
      FinishedFacts(Abs(), name, finished);
      if name in active {
        active := active - {name};
      }
      if name in cache {
        cache := cache[name := cache[name].(finished := Some(finished))];
      }
    }

    /** The comprehension over `cache.items()`: one row per entry, in insertion order. */
    method CollectRows() returns (rows: seq<string>)
      requires Listed(Abs())
      ensures rows == StatusRows(Abs())
    {
      rows := [];
      var i := 0;
      while i < |order|
        invariant i <= |order| && rows == StatusRows(Abs())[..i]
      {
        var n := order[i];
        rows := rows + [EntryRow(n, cache[n])];
        i := i + 1;
      }
    }

    /** The `status` snapshot: `rows` built under the lock, one per client ever
        registered in registration order, then framed by the title and the two markers. */
    method StatusSnapshot() returns (lines: seq<string>)
      requires Valid()
      ensures lines == StatusLines(Abs())
      ensures |lines| == counter + 3
      ensures lines[0] == "STATUS BEGIN" && lines[1] == StatusTitle() && lines[|lines| - 1] == "STATUS END"
      ensures forall i :: 0 <= i < counter ==>
        var n := order[i];
        n == ClientName(i + 1) && lines[i + 2] == EntryRow(n, cache[n])
    {
      var rows := CollectRows();
      lines := ["STATUS BEGIN", StatusTitle()] + rows + ["STATUS END"];
      StatusRowsFacts(Abs());
      assert forall i :: 0 <= i < |rows| ==> lines[i + 2] == rows[i];
    }

    /** The `who` snapshot: the active names sorted and joined under the lock; the line
        says `<none>` exactly when nobody is active. */
    method WhoSnapshot() returns (line: string)
      requires Valid()
      ensures line == WhoLine(active)
      ensures line == "WHO <none>" <==> active == {}
    {
      if active != {} {
        var names := SortNames(active);
        line := "WHO " + Join(names, ", ");
        WhoFacts(Abs());
        if line == "WHO <none>" {
          PrefixCancel("WHO ", Join(names, ", "), "<none>");
        }
      } else {
        line := "WHO <none>";
      }
    }
  }
}
