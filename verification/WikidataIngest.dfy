/** The two-pass dump ingest: entity pairs per relation with a cap and an early exit,
    then labels with a countdown, then the output files. Lines are what the line parser
    and the extraction patterns make of them. */
module WikidataIngest {
  import opened Wrappers
  import opened Sets

  type Qid = string
  type Pid = string

  /** The parts of a line that the two passes look at, each present if its pattern
      matched. */
  datatype Line = Line(
    property: Option<Pid>,
    subject: Option<Qid>,
    entity: Option<Qid>,
    year: Option<string>,
    symbol: Option<string>,
    isLabel: bool,
    text: Option<string>)

  datatype Object = Entity(q: Qid) | Year(y: string) | Literal(s: string)

  datatype Pair = Pair(subject: Qid, target: Object)

  // ---- What a line contributes ----------------------------------------------

  predicate IsDate(pid: Pid) {
    pid == "P569" || pid == "P570" || pid == "P577"
  }

  /** The object of a relation line: an entity if there is one, otherwise a year for the
      date properties and a literal for the chemical symbol. */
  function ObjectOf(l: Line, pid: Pid): Option<Object> {
    if l.entity.Some? then Some(Entity(l.entity.value))
    else if IsDate(pid) then (if l.year.Some? then Some(Year(l.year.value)) else None)
    else if pid == "P246" then (if l.symbol.Some? then Some(Literal(l.symbol.value)) else None)
    else None
  }

  function PairOf(l: Line, pid: Pid): Option<Pair> {
    if l.property != Some(pid) || l.subject.None? || ObjectOf(l, pid).None? then None
    else Some(Pair(l.subject.value, ObjectOf(l, pid).value))
  }

  /** All the pairs of a property in the first n lines, in file order. */
  ghost function Matches(lines: seq<Line>, pid: Pid, n: nat): seq<Pair>
    requires n <= |lines|
  {
    if n == 0 then []
    else
      var before := Matches(lines, pid, n - 1);
      if PairOf(lines[n - 1], pid).Some? then before + [PairOf(lines[n - 1], pid).value] else before
  }

  /** A cap below one still lets the first pair in. */
  function Cap(maxPerRelation: int): nat {
    if maxPerRelation < 1 then 1 else maxPerRelation
  }

  ghost function FirstMatches(lines: seq<Line>, pid: Pid, cap: nat, n: nat): seq<Pair>
    requires n <= |lines|
  {
    var all := Matches(lines, pid, n);
    if |all| <= cap then all else all[..cap]
  }

  lemma {:induction false} MatchesGrow(lines: seq<Line>, pid: Pid, n: nat, m: nat)
    requires n <= m <= |lines|
    ensures Matches(lines, pid, n) <= Matches(lines, pid, m)
  {
    if n < m {
      MatchesGrow(lines, pid, n, m - 1);
    }
  }

  // ---- Pass 1 ---------------------------------------------------------------

  function PairsOf(pairs: map<Pid, seq<Pair>>, pid: Pid): seq<Pair> {
    if pid in pairs then pairs[pid] else []
  }

  /** The pairs collected after n lines: the first of each target, no empty entries. */
  ghost predicate Collected(pairs: map<Pid, seq<Pair>>, lines: seq<Line>, targets: set<Pid>, cap: nat, n: nat)
    requires n <= |lines|
  {
    (forall pid :: pid in pairs ==> pairs[pid] != [])
    && forall pid: Pid :: PairsOf(pairs, pid) == if pid in targets then FirstMatches(lines, pid, cap, n) else []
  }

  ghost predicate Mentions(ps: seq<Pair>, q: Qid) {
    exists i :: 0 <= i < |ps| && (ps[i].subject == q || ps[i].target == Entity(q))
  }

  /** Exactly the entities of the collected pairs. */
  ghost predicate IsNeeded(needed: set<Qid>, pairs: map<Pid, seq<Pair>>) {
    forall q: Qid :: q in needed <==> exists pid: Pid :: Mentions(PairsOf(pairs, pid), q)
  }

  function QidsOf(p: Pair): set<Qid> {
    if p.target.Entity? then {p.subject, p.target.q} else {p.subject}
  }

  lemma MentionsMore(ps: seq<Pair>, p: Pair, q: Qid)
    ensures Mentions(ps + [p], q) <==> Mentions(ps, q) || q in QidsOf(p)
  {
    assert (ps + [p])[|ps|] == p;
    if i :| 0 <= i < |ps| && (ps[i].subject == q || ps[i].target == Entity(q)) {
      assert (ps + [p])[i] == ps[i];
    }
  }

  lemma NeededMore(needed: set<Qid>, pairs: map<Pid, seq<Pair>>, pid: Pid, p: Pair)
    requires IsNeeded(needed, pairs)
    ensures IsNeeded(needed + QidsOf(p), pairs[pid := PairsOf(pairs, pid) + [p]])
  {
    var more := pairs[pid := PairsOf(pairs, pid) + [p]];
    forall q: Qid
      ensures q in needed + QidsOf(p) <==> exists o: Pid :: Mentions(PairsOf(more, o), q)
    {
      MentionsMore(PairsOf(pairs, pid), p, q);
      if o: Pid :| Mentions(PairsOf(pairs, o), q) {
        assert Mentions(PairsOf(more, o), q);
      }
      if q in QidsOf(p) {
        assert Mentions(PairsOf(more, pid), q);
      }
      if o: Pid :| Mentions(PairsOf(more, o), q) {
        assert o == pid || PairsOf(more, o) == PairsOf(pairs, o);
      }
    }
  }

  /** A line that adds a pair to its relation. */
  lemma CollectedMore(pairs: map<Pid, seq<Pair>>, lines: seq<Line>, targets: set<Pid>, cap: nat, n: nat, pid: Pid, p: Pair)
    requires n < |lines| && Collected(pairs, lines, targets, cap, n) && pid in targets
    requires PairOf(lines[n], pid) == Some(p) && |PairsOf(pairs, pid)| < cap
    ensures Collected(pairs[pid := PairsOf(pairs, pid) + [p]], lines, targets, cap, n + 1)
  {
  }

  /** Once every target is full, the rest of the file adds nothing. */
  lemma CollectedAll(pairs: map<Pid, seq<Pair>>, lines: seq<Line>, targets: set<Pid>, cap: nat, n: nat)
    requires n <= |lines| && Collected(pairs, lines, targets, cap, n)
    requires forall pid :: pid in targets ==> |PairsOf(pairs, pid)| >= cap
    ensures Collected(pairs, lines, targets, cap, |lines|)
  {
    forall pid: Pid | pid in targets
      ensures FirstMatches(lines, pid, cap, |lines|) == FirstMatches(lines, pid, cap, n)
    {
      MatchesGrow(lines, pid, n, |lines|);
    }
  }

  /** The targets that have reached the cap. */
  ghost predicate IsFilled(filled: set<Pid>, pairs: map<Pid, seq<Pair>>, targets: set<Pid>, cap: nat) {
    filled <= targets && forall pid :: pid in targets ==> (pid in filled <==> |PairsOf(pairs, pid)| >= cap)
  }

  /** What a line that is skipped leaves true. */
  lemma SkippedLine(pairs: map<Pid, seq<Pair>>, filled: set<Pid>, lines: seq<Line>, targets: set<Pid>, cap: nat, n: nat)
    requires n < |lines| && Collected(pairs, lines, targets, cap, n) && IsFilled(filled, pairs, targets, cap)
    requires var l := lines[n];
      l.property.None? || l.property.value !in targets || l.property.value in filled
      || l.subject.None? || ObjectOf(l, l.property.value).None?
    ensures Collected(pairs, lines, targets, cap, n + 1)
  {
  }

  /** What a line that is taken makes true. */
  lemma TakenLine(pairs: map<Pid, seq<Pair>>, needed: set<Qid>, filled: set<Pid>, lines: seq<Line>, targets: set<Pid>,
                  maxPerRelation: int, n: nat, pid: Pid, p: Pair)
    requires var cap := Cap(maxPerRelation);
      n < |lines| && Collected(pairs, lines, targets, cap, n) && IsFilled(filled, pairs, targets, cap) && IsNeeded(needed, pairs)
    requires pid in targets && pid !in filled && PairOf(lines[n], pid) == Some(p)
    ensures var cap, now := Cap(maxPerRelation), PairsOf(pairs, pid) + [p]; var more := pairs[pid := now];
      Collected(more, lines, targets, cap, n + 1) && IsNeeded(needed + QidsOf(p), more)
      && IsFilled(if |now| >= maxPerRelation then filled + {pid} else filled, more, targets, cap)
  {
    hide Collected, IsNeeded;
    CollectedMore(pairs, lines, targets, Cap(maxPerRelation), n, pid, p);
    NeededMore(needed, pairs, pid, p);
  }

  /** Pass 1. Each target ends with exactly its first pairs in file order; nothing is
      lost to the filled set or the early exit, which is only looked for after a line
      with an entity object. */
  method RunPass1(lines: seq<Line>, targets: set<Pid>, maxPerRelation: int)
    returns (pairs: map<Pid, seq<Pair>>, needed: set<Qid>)
    ensures Collected(pairs, lines, targets, Cap(maxPerRelation), |lines|)
    ensures IsNeeded(needed, pairs)
  {
    hide Collected, IsNeeded, IsFilled, ObjectOf, QidsOf, Cap;
    ghost var cap := Cap(maxPerRelation);
    pairs, needed := map[], {};
    var filled: set<Pid> := {};
    NothingCollected(lines, targets, cap, maxPerRelation);
    var n := 0;
    while n < |lines|
      invariant 0 <= n <= |lines|
      invariant Collected(pairs, lines, targets, cap, n) && IsNeeded(needed, pairs) && IsFilled(filled, pairs, targets, cap)
    {
      var line := lines[n];
      n := n + 1;
      if line.property.None? || line.property.value !in targets || line.property.value in filled
         || line.subject.None? || ObjectOf(line, line.property.value).None? {
        SkippedLine(pairs, filled, lines, targets, cap, n - 1);
        continue;
      }
      var pid := line.property.value;
      var p := Pair(line.subject.value, ObjectOf(line, pid).value);
      TakenLine(pairs, needed, filled, lines, targets, maxPerRelation, n - 1, pid, p);
      var now := PairsOf(pairs, pid) + [p];
      pairs := pairs[pid := now];
      needed := needed + QidsOf(p);
      filled := if |now| >= maxPerRelation then filled + {pid} else filled;
      if line.entity.Some? && |filled| == |targets| {
        AllFilled(filled, pairs, lines, targets, cap, n);
        return;
      }
    }
  }

  lemma AllFilled(filled: set<Pid>, pairs: map<Pid, seq<Pair>>, lines: seq<Line>, targets: set<Pid>, cap: nat, n: nat)
    requires n <= |lines| && Collected(pairs, lines, targets, cap, n) && IsFilled(filled, pairs, targets, cap)
    requires |filled| == |targets|
    ensures Collected(pairs, lines, targets, cap, |lines|)
  {
    hide Collected;
    FullSubset(filled, targets);
    CollectedAll(pairs, lines, targets, cap, n);
  }

  lemma NothingCollected(lines: seq<Line>, targets: set<Pid>, cap: nat, maxPerRelation: int)
    requires cap == Cap(maxPerRelation)
    ensures Collected(map[], lines, targets, cap, 0) && IsNeeded({}, map[]) && IsFilled({}, map[], targets, cap)
  {
  }

  // ---- Pass 2 ---------------------------------------------------------------

  /** The label a line gives entity q, if it is a good one. */
  function LabelOf(l: Line, q: Qid, good: string -> bool): Option<string> {
    if l.isLabel && l.subject == Some(q) && l.text.Some? && l.text.value != "" && good(l.text.value) then l.text else None
  }

  /** The first good label of q in the first n lines. */
  ghost function FirstLabel(lines: seq<Line>, q: Qid, good: string -> bool, n: nat): Option<string>
    requires n <= |lines|
  {
    if n == 0 then None
    else if FirstLabel(lines, q, good, n - 1).Some? then FirstLabel(lines, q, good, n - 1)
    else LabelOf(lines[n - 1], q, good)
  }

  lemma {:induction false} FirstLabelStays(lines: seq<Line>, q: Qid, good: string -> bool, n: nat, m: nat)
    requires n <= m <= |lines| && FirstLabel(lines, q, good, n).Some?
    ensures FirstLabel(lines, q, good, m) == FirstLabel(lines, q, good, n)
  {
    if n < m {
      FirstLabelStays(lines, q, good, n, m - 1);
    }
  }

  function LabelIn(labels: map<Qid, string>, q: Qid): Option<string> {
    if q in labels then Some(labels[q]) else None
  }

  ghost predicate Labelled(labels: map<Qid, string>, lines: seq<Line>, needed: set<Qid>, good: string -> bool, n: nat)
    requires n <= |lines|
  {
    labels.Keys <= needed && forall q :: q in needed ==> LabelIn(labels, q) == FirstLabel(lines, q, good, n)
  }

  ghost function Count(labels: map<Qid, string>): nat {
    |labels.Keys|
  }

  lemma LabelledMore(labels: map<Qid, string>, lines: seq<Line>, needed: set<Qid>, good: string -> bool, n: nat, q: Qid)
    requires n < |lines| && Labelled(labels, lines, needed, good, n) && q in needed && q !in labels
    requires LabelOf(lines[n], q, good).Some?
    ensures var more := labels[q := lines[n].text.value];
      Labelled(more, lines, needed, good, n + 1) && Count(more) == Count(labels) + 1
  {
  }

  lemma LabelledSame(labels: map<Qid, string>, lines: seq<Line>, needed: set<Qid>, good: string -> bool, n: nat)
    requires n < |lines| && Labelled(labels, lines, needed, good, n)
    requires forall q :: q in needed && q !in labels ==> LabelOf(lines[n], q, good).None?
    ensures Labelled(labels, lines, needed, good, n + 1)
  {
  }

  lemma AllLabelled(labels: map<Qid, string>, lines: seq<Line>, needed: set<Qid>, good: string -> bool, n: nat)
    requires n <= |lines| && Labelled(labels, lines, needed, good, n) && Count(labels) >= |needed|
    ensures Labelled(labels, lines, needed, good, |lines|)
  {
    SubsetSize(labels.Keys, needed);
    FullSubset(labels.Keys, needed);
    forall q | q in needed
      ensures LabelIn(labels, q) == FirstLabel(lines, q, good, |lines|)
    {
      assert q in labels.Keys;
      FirstLabelStays(lines, q, good, n, |lines|);
    }
  }

  /** Pass 2. Every needed entity gets its first good label; the countdown stops only
      when none is missing. */
  method RunPass2(lines: seq<Line>, needed: set<Qid>, good: string -> bool) returns (labels: map<Qid, string>)
    ensures Labelled(labels, lines, needed, good, |lines|)
  {
    hide Labelled, Count;
    labels := map[];
    var remaining: int := |needed|;
    NothingLabelled(lines, needed, good);
    var n := 0;
    while n < |lines|
      invariant 0 <= n <= |lines| && Labelled(labels, lines, needed, good, n)
      invariant remaining == |needed| - Count(labels)
    {
      var line := lines[n];
      n := n + 1;
      if !line.isLabel || line.subject.None? || line.subject.value !in needed || line.subject.value in labels {
        LabelledSame(labels, lines, needed, good, n - 1);
        continue;
      }
      var q := line.subject.value;
      if line.text.Some? && line.text.value != "" && good(line.text.value) {
        LabelledMore(labels, lines, needed, good, n - 1, q);
        labels := labels[q := line.text.value];
        remaining := remaining - 1;
      } else {
        LabelledSame(labels, lines, needed, good, n - 1);
      }
      if remaining <= 0 {
        AllLabelled(labels, lines, needed, good, n);
        return;
      }
    }
  }

  lemma NothingLabelled(lines: seq<Line>, needed: set<Qid>, good: string -> bool)
    ensures Labelled(map[], lines, needed, good, 0) && Count(map[]) == 0
  {
  }

  // ---- Output ---------------------------------------------------------------

  /** A pair of labels, if both sides have one; years and literals stand for themselves. */
  function Resolve(p: Pair, labels: Qid -> Option<string>): Option<(string, string)> {
    if labels(p.subject).None? then None
    else match p.target
      case Year(y) => Some((labels(p.subject).value, y))
      case Literal(s) => Some((labels(p.subject).value, s))
      case Entity(q) => if labels(q).None? then None else Some((labels(p.subject).value, labels(q).value))
  }

  ghost function Resolved(ps: seq<Pair>, labels: Qid -> Option<string>, n: nat): seq<(string, string)>
    requires n <= |ps|
  {
    if n == 0 then []
    else
      var before := Resolved(ps, labels, n - 1);
      if Resolve(ps[n - 1], labels).Some? then before + [Resolve(ps[n - 1], labels).value] else before
  }

  ghost function ResolvedAll(ps: seq<Pair>, labels: Qid -> Option<string>): seq<(string, string)> {
    Resolved(ps, labels, |ps|)
  }

  method ResolvePairs(ps: seq<Pair>, labels: map<Qid, string>) returns (resolved: seq<(string, string)>)
    ensures resolved == ResolvedAll(ps, q => LabelIn(labels, q))
  {
    resolved := [];
    for i := 0 to |ps|
      invariant resolved == Resolved(ps, q => LabelIn(labels, q), i)
    {
      var r := Resolve(ps[i], q => LabelIn(labels, q));
      if r.Some? {
        resolved := resolved + [r.value];
      }
    }
  }

  datatype RelationFile = RelationFile(pid: Pid, count: nat, pairs: seq<(string, string)>)

  datatype Combined = Combined(pid: Pid, pairs: seq<(string, string)>)

  /** The label pairs of a property. */
  ghost function Data(pairs: map<Pid, seq<Pair>>, labels: map<Qid, string>): Pid -> seq<(string, string)> {
    pid => ResolvedAll(PairsOf(pairs, pid), q => LabelIn(labels, q))
  }

  /** The property whose file of this name is the last one written. */
  ghost function LastOf(name: string, names: Pid -> string, order: seq<Pid>, data: Pid -> seq<(string, string)>, n: nat)
    : Option<Pid>
    requires n <= |order|
  {
    if n == 0 then None
    else if names(order[n - 1]) == name && data(order[n - 1]) != [] then Some(order[n - 1])
    else LastOf(name, names, order, data, n - 1)
  }

  ghost predicate Written(files: map<string, RelationFile>, names: Pid -> string, order: seq<Pid>,
                          data: Pid -> seq<(string, string)>, n: nat)
    requires n <= |order|
  {
    forall name: string ::
      var last := LastOf(name, names, order, data, n);
      && (name in files <==> last.Some?)
      && (name in files ==> files[name] == RelationFile(last.value, |data(last.value)|, data(last.value)))
  }

  ghost predicate CombinedWritten(combined: map<string, Combined>, names: Pid -> string, order: seq<Pid>,
                                  data: Pid -> seq<(string, string)>, n: nat)
    requires n <= |order|
  {
    forall name: string ::
      var last := LastOf(name, names, order, data, n);
      && (name in combined <==> last.Some?)
      && (name in combined ==> combined[name] == Combined(last.value, data(last.value)))
  }

  ghost predicate Summarised(summary: map<string, nat>, files: map<string, RelationFile>) {
    summary.Keys == files.Keys && forall name :: name in files ==> summary[name] == files[name].count
  }

  /** A file per relation with any resolved pair. */
  method WriteFiles(pairs: map<Pid, seq<Pair>>, order: seq<Pid>, labels: map<Qid, string>, names: Pid -> string)
    returns (files: map<string, RelationFile>, summary: map<string, nat>)
    requires forall pid :: pid in order ==> pid in pairs
    ensures Written(files, names, order, Data(pairs, labels), |order|) && Summarised(summary, files)
  {
    hide ResolvedAll;
    files, summary := map[], map[];
    for n := 0 to |order|
      invariant Written(files, names, order, Data(pairs, labels), n) && Summarised(summary, files)
    {
      var name := names(order[n]);
      var resolved := ResolvePairs(pairs[order[n]], labels);
      assert resolved == Data(pairs, labels)(order[n]);
      if resolved != [] {
        files := files[name := RelationFile(order[n], |resolved|, resolved)];
        summary := summary[name := |resolved|];
      }
    }
  }

  /** The combined file, resolved again from scratch. */
  method WriteCombined(pairs: map<Pid, seq<Pair>>, order: seq<Pid>, labels: map<Qid, string>, names: Pid -> string)
    returns (combined: map<string, Combined>)
    requires forall pid :: pid in order ==> pid in pairs
    ensures CombinedWritten(combined, names, order, Data(pairs, labels), |order|)
  {
    hide ResolvedAll;
    combined := map[];
    for n := 0 to |order|
      invariant CombinedWritten(combined, names, order, Data(pairs, labels), n)
    {
      var name := names(order[n]);
      var resolved := ResolvePairs(pairs[order[n]], labels);
      assert resolved == Data(pairs, labels)(order[n]);
      if resolved != [] {
        combined := combined[name := Combined(order[n], resolved)];
      }
    }
  }

  /** The combined file says what the relation files say, also where two properties
      share a name and the later one replaced the earlier. */
  lemma CombinedAgrees(files: map<string, RelationFile>, combined: map<string, Combined>, summary: map<string, nat>,
                       names: Pid -> string, order: seq<Pid>, data: Pid -> seq<(string, string)>)
    requires Written(files, names, order, data, |order|) && CombinedWritten(combined, names, order, data, |order|)
    requires Summarised(summary, files)
    ensures files.Keys == combined.Keys == summary.Keys
    ensures forall name :: name in files ==>
      files[name].pid == combined[name].pid && files[name].pairs == combined[name].pairs
      && files[name].count == |files[name].pairs| == summary[name]
  {
  }

  // ---- The whole ingest -----------------------------------------------------

  /** In one pass over the whole file, without caps, sets or countdowns: the first pairs
      of a property, each side replaced by the entity's first good label. */
  ghost function Wanted(lines: seq<Line>, pid: Pid, cap: nat, good: string -> bool): seq<(string, string)> {
    ResolvedAll(FirstMatches(lines, pid, cap, |lines|), q => FirstLabel(lines, q, good, |lines|))
  }

  lemma {:induction false} SameLabels(ps: seq<Pair>, f: Qid -> Option<string>, g: Qid -> Option<string>, n: nat)
    requires n <= |ps| && forall q :: Mentions(ps, q) ==> f(q) == g(q)
    ensures Resolved(ps, f, n) == Resolved(ps, g, n)
  {
    if n > 0 {
      SameLabels(ps, f, g, n - 1);
      assert Mentions(ps, ps[n - 1].subject);
      if ps[n - 1].target.Entity? {
        assert Mentions(ps, ps[n - 1].target.q);
      }
    }
  }

  /** The two passes together give each property what one pass would: the labels of the
      entities that matter are exactly those that were asked for. */
  lemma TwoPassesAreOne(lines: seq<Line>, targets: set<Pid>, cap: nat, good: string -> bool, pairs: map<Pid, seq<Pair>>,
                        needed: set<Qid>, labels: map<Qid, string>, pid: Pid)
    requires Collected(pairs, lines, targets, cap, |lines|) && IsNeeded(needed, pairs)
    requires Labelled(labels, lines, needed, good, |lines|) && pid in targets
    ensures Data(pairs, labels)(pid) == Wanted(lines, pid, cap, good)
  {
    hide FirstMatches, FirstLabel, Resolved;
    var ps := PairsOf(pairs, pid);
    assert ps == FirstMatches(lines, pid, cap, |lines|);
    var f, g := q => LabelIn(labels, q), q => FirstLabel(lines, q, good, |lines|);
    forall q | Mentions(ps, q)
      ensures f(q) == g(q)
    {
      assert q in needed;
    }
    SameLabels(ps, f, g, |ps|);
  }

  /** Where the names of the collected properties differ, each has its own entry. */
  lemma {:induction false} OwnEntry(names: Pid -> string, order: seq<Pid>, data: Pid -> seq<(string, string)>, n: nat, i: nat)
    requires i < n <= |order| && data(order[i]) != []
    requires forall j :: 0 <= j < n && names(order[j]) == names(order[i]) ==> order[j] == order[i]
    ensures LastOf(names(order[i]), names, order, data, n) == Some(order[i])
  {
    if i < n - 1 && names(order[n - 1]) != names(order[i]) {
      OwnEntry(names, order, data, n - 1, i);
    }
  }

  /** End to end: scan, label, write. Every target whose name is its own ends up in the
      combined file with exactly the wanted pairs, or not at all if there are none. */
  method Ingest(lines: seq<Line>, targets: set<Pid>, maxPerRelation: int, good: string -> bool, names: Pid -> string,
                sorted: set<Pid> -> seq<Pid>)
    returns (files: map<string, RelationFile>, combined: map<string, Combined>, summary: map<string, nat>)
    requires forall s: set<Pid>, pid: Pid :: pid in sorted(s) <==> pid in s
    requires forall a, b :: a in targets && b in targets && names(a) == names(b) ==> a == b
    ensures forall pid :: pid in targets ==>
      var wanted := Wanted(lines, pid, Cap(maxPerRelation), good);
      if wanted == [] then names(pid) !in combined else names(pid) in combined && combined[names(pid)] == Combined(pid, wanted)
    ensures files.Keys == combined.Keys == summary.Keys
    ensures forall name :: name in files ==>
      files[name].pid == combined[name].pid && files[name].pairs == combined[name].pairs
      && files[name].count == |files[name].pairs| == summary[name]
  {
    hide Collected, IsNeeded, Labelled, Wanted, Data, Written, CombinedWritten, Summarised;
    var pairs, needed := RunPass1(lines, targets, maxPerRelation);
    var labels := RunPass2(lines, needed, good);
    var order := sorted(pairs.Keys);
    files, summary := WriteFiles(pairs, order, labels, names);
    combined := WriteCombined(pairs, order, labels, names);
    CombinedAgrees(files, combined, summary, names, order, Data(pairs, labels));
    forall pid | pid in targets
      ensures var wanted := Wanted(lines, pid, Cap(maxPerRelation), good);
        if wanted == [] then names(pid) !in combined else names(pid) in combined && combined[names(pid)] == Combined(pid, wanted)
    {
      TwoPassesAreOne(lines, targets, Cap(maxPerRelation), good, pairs, needed, labels, pid);
      EntryOf(lines, targets, Cap(maxPerRelation), pairs, names, order, labels, combined, pid);
    }
  }

  lemma EntryOf(lines: seq<Line>, targets: set<Pid>, cap: nat, pairs: map<Pid, seq<Pair>>, names: Pid -> string,
                order: seq<Pid>, labels: map<Qid, string>, combined: map<string, Combined>, pid: Pid)
    requires Collected(pairs, lines, targets, cap, |lines|) && pid in targets
    requires forall p: Pid :: p in order <==> p in pairs
    requires forall a, b :: a in targets && b in targets && names(a) == names(b) ==> a == b
    requires CombinedWritten(combined, names, order, Data(pairs, labels), |order|)
    ensures var data := Data(pairs, labels)(pid);
      if data == [] then names(pid) !in combined else names(pid) in combined && combined[names(pid)] == Combined(pid, data)
  {
    hide FirstMatches, ResolvedAll;
    var data := Data(pairs, labels);
    OnlyTargets(lines, targets, cap, pairs);
    if data(pid) != [] {
      NoDataForNone(pairs, labels, pid);
      var i :| 0 <= i < |order| && order[i] == pid;
      OwnEntry(names, order, data, |order|, i);
    } else {
      NoEntry(names, order, data, |order|, pid);
    }
  }

  lemma OnlyTargets(lines: seq<Line>, targets: set<Pid>, cap: nat, pairs: map<Pid, seq<Pair>>)
    requires Collected(pairs, lines, targets, cap, |lines|)
    ensures pairs.Keys <= targets
  {
  }

  lemma NoDataForNone(pairs: map<Pid, seq<Pair>>, labels: map<Qid, string>, pid: Pid)
    ensures pid !in pairs ==> Data(pairs, labels)(pid) == []
  {
  }

  lemma {:induction false} NoEntry(names: Pid -> string, order: seq<Pid>, data: Pid -> seq<(string, string)>, n: nat, pid: Pid)
    requires n <= |order| && data(pid) == []
    requires forall j :: 0 <= j < n && names(order[j]) == names(pid) ==> order[j] == pid
    ensures LastOf(names(pid), names, order, data, n) == None
  {
    if n > 0 {
      NoEntry(names, order, data, n - 1, pid);
    }
  }

  // ---- What the pairs are ---------------------------------------------------

  /** The line states the pair for the property: its subject, and its entity; or, without
      an entity, its year for a date of birth, death or publication, or its symbol for the
      element symbol. */
  ghost predicate Says(l: Line, pid: Pid, p: Pair) {
    && l.property == Some(pid) && l.subject == Some(p.subject)
    && match p.target
       case Entity(q) => l.entity == Some(q)
       case Year(y) => l.entity == None && pid in {"P569", "P570", "P577"} && l.year == Some(y)
       case Literal(s) => l.entity == None && pid == "P246" && l.symbol == Some(s)
  }

  lemma PairOfSays(l: Line, pid: Pid, p: Pair)
    ensures PairOf(l, pid) == Some(p) <==> Says(l, pid, p)
  {
  }

  ghost predicate Increasing(ix: seq<nat>, n: nat) {
    (forall j :: 0 <= j < |ix| ==> ix[j] < n) && forall i, j :: 0 <= i < j < |ix| ==> ix[i] < ix[j]
  }

  /** The lines that make the pairs of a property, in file order, all of them. */
  lemma {:induction false} MatchingLines(lines: seq<Line>, pid: Pid, n: nat) returns (ix: seq<nat>)
    requires n <= |lines|
    ensures Increasing(ix, n) && |ix| == |Matches(lines, pid, n)|
    ensures forall j :: 0 <= j < |ix| ==> PairOf(lines[ix[j]], pid) == Some(Matches(lines, pid, n)[j])
    ensures forall i: nat :: i < n && PairOf(lines[i], pid).Some? ==> i in ix
  {
    hide PairOf;
    ix := [];
    if n > 0 {
      ix := MatchingLines(lines, pid, n - 1);
      if PairOf(lines[n - 1], pid).Some? {
        ix := ix + [n - 1];
        assert ix[|ix| - 1] == n - 1;
      }
    }
  }

  /** No other of the first n lines states a pair. */
  ghost predicate NoOthers(lines: seq<Line>, pid: Pid, ix: seq<nat>, n: nat)
    requires n <= |lines|
  {
    forall i: nat, p: Pair :: i < n && Says(lines[i], pid, p) ==> i in ix
  }

  /** What pass 1 collects for a target: the pairs of its first lines that state one, in
      order, at most the cap and at least one; and where there are fewer than that, all. */
  lemma CollectedAreFirst(pairs: map<Pid, seq<Pair>>, lines: seq<Line>, targets: set<Pid>, maxPerRelation: int, pid: Pid)
      returns (ix: seq<nat>)
    requires Collected(pairs, lines, targets, Cap(maxPerRelation), |lines|) && pid in targets
    ensures Increasing(ix, |lines|) && |ix| == |PairsOf(pairs, pid)|
    ensures |ix| <= maxPerRelation || |ix| <= 1
    ensures forall j :: 0 <= j < |ix| ==> Says(lines[ix[j]], pid, PairsOf(pairs, pid)[j])
    ensures NoOthers(lines, pid, ix, if |ix| == 0 || |ix| < maxPerRelation then |lines| else ix[|ix| - 1] + 1)
  {
    hide Says, PairOf;
    var ps := PairsOf(pairs, pid);
    var all := MatchingLines(lines, pid, |lines|);
    ix := all[..|ps|];
    forall j | 0 <= j < |ix|
      ensures Says(lines[ix[j]], pid, ps[j])
    {
      PairOfSays(lines[ix[j]], pid, ps[j]);
    }
    var n := if |ix| == 0 || |ix| < maxPerRelation then |lines| else ix[|ix| - 1] + 1;
    forall i: nat, p: Pair | i < n && Says(lines[i], pid, p)
      ensures i in ix
    {
      PairOfSays(lines[i], pid, p);
      assert i in all;
      PrefixHolds(all, |ix|, |lines|, i);
    }
  }

  lemma PrefixHolds(all: seq<nat>, k: nat, n: nat, i: nat)
    requires Increasing(all, n) && k <= |all| && i in all && (k == |all| || (k > 0 && i <= all[k - 1]))
    ensures i in all[..k]
  {
    var j :| 0 <= j < |all| && all[j] == i;
    assert j < k;
    assert all[..k][j] == i;
  }

  /** The first good label, line by line: a label line of the entity with a text that is
      good and not empty, and no such line before it. */
  lemma {:induction false} FirstLabelIs(lines: seq<Line>, q: Qid, good: string -> bool, n: nat, t: string)
    requires n <= |lines|
    ensures FirstLabel(lines, q, good, n) == Some(t) <==>
      exists i: nat :: i < n && Labels(lines[i], q, good, t) && forall j: nat, u :: j < i ==> !Labels(lines[j], q, good, u)
    ensures FirstLabel(lines, q, good, n) == None <==> forall j: nat, u :: j < n ==> !Labels(lines[j], q, good, u)
  {
    if n > 0 {
      FirstLabelIs(lines, q, good, n - 1, t);
      var l := lines[n - 1];
      assert forall u :: Labels(l, q, good, u) <==> LabelOf(l, q, good) == Some(u);
    }
  }

  /** The line gives the entity the good label t. */
  ghost predicate Labels(l: Line, q: Qid, good: string -> bool, t: string) {
    l.isLabel && l.subject == Some(q) && l.text == Some(t) && t != "" && good(t)
  }

  /** What a pair becomes: its subject's label, and its object's label or text. */
  lemma ResolveIs(p: Pair, labels: Qid -> Option<string>, a: string, b: string)
    ensures Resolve(p, labels) == Some((a, b)) <==>
      labels(p.subject) == Some(a)
      && match p.target case Entity(q) => labels(q) == Some(b) case Year(y) => b == y case Literal(s) => b == s
  {
  }

  /** The wanted pairs: those of the matches that resolve, in order. */
  lemma {:induction false} ResolvedInOrder(ps: seq<Pair>, labels: Qid -> Option<string>, n: nat) returns (ix: seq<nat>)
    requires n <= |ps|
    ensures Increasing(ix, n) && |ix| == |Resolved(ps, labels, n)|
    ensures forall j :: 0 <= j < |ix| ==> Resolve(ps[ix[j]], labels) == Some(Resolved(ps, labels, n)[j])
    ensures forall i: nat :: i < n && Resolve(ps[i], labels).Some? ==> i in ix
  {
    hide Resolve;
    ix := [];
    if n > 0 {
      ix := ResolvedInOrder(ps, labels, n - 1);
      if Resolve(ps[n - 1], labels).Some? {
        ix := ix + [n - 1];
        assert ix[|ix| - 1] == n - 1;
      }
    }
  }
}
