/**
 * The behaviour language of a nanobot.  A script is read line by line; each
 * line is trimmed and is either
 *   `idle <action>`          — the action to perform when no event fires, or
 *   `on <event> <action>`    — the action to perform when `<event>` fires;
 * every other line, and every `on` line with fewer than two words after `on`,
 * is ignored.  A later declaration overrides an earlier one.
 */
module Script {
  import opened Wrappers
  import opened Text

  /** What a script declares: an optional idle action and a map from event to action. */
  datatype Behaviour = Behaviour(idle: Option<string>, events: map<string, string>)

  /** The behaviour of a nanobot before its script is read. */
  const NoBehaviour := Behaviour(None, map[])

  /** What one line of a script declares. */
  datatype Decl = IdleDecl(action: string) | OnDecl(event: string, action: string) | Ignored

  /**
   * One line, trimmed: `idle ` and the trimmed rest, or `on ` and at least two
   * words (the first two count), or nothing.
   */
  function Classify(line: string): Decl {
    var l := Strip(line);
    if StartsWith(l, "idle ") then IdleDecl(Strip(l[5..]))
    else if StartsWith(l, "on ") then
      var words := SplitWs(l[3..]);
      if |words| >= 2 then OnDecl(words[0], words[1]) else Ignored
    else Ignored
  }

  /** `f` applied to every element of `xs`. */
  function MapSeq<A, B>(f: A -> B, xs: seq<A>): (ys: seq<B>)
    ensures |ys| == |xs|
    ensures forall i :: 0 <= i < |xs| ==> ys[i] == f(xs[i])
  {
    seq(|xs|, i requires 0 <= i < |xs| => f(xs[i]))
  }

  lemma MapSeqSnoc<A, B>(f: A -> B, xs: seq<A>, i: nat)
    requires i < |xs|
    ensures MapSeq(f, xs[..i + 1]) == MapSeq(f, xs[..i]) + [f(xs[i])]
  {
    assert xs[..i + 1][i] == xs[i];
  }

  /** The declarations of `lines`, in order. */
  function Declarations(lines: seq<string>): seq<Decl> {
    MapSeq(Classify, lines)
  }

  /** The effect of one declaration: a later one overrides an earlier one. */
  function Apply(b: Behaviour, d: Decl): Behaviour {
    match d
    case IdleDecl(a) => b.(idle := Some(a))
    case OnDecl(e, a) => b.(events := b.events[e := a])
    case Ignored => b
  }

  /** The effect of declarations `ds`, in order, on `b`. */
  function ParseDecls(b: Behaviour, ds: seq<Decl>): Behaviour
    decreases |ds|
  {
    if ds == [] then b
    else Apply(ParseDecls(b, ds[..|ds| - 1]), ds[|ds| - 1])
  }

  /** The behaviour a (stripped) script declares. */
  function ParseScript(logic: string): Behaviour {
    ParseDecls(NoBehaviour, Declarations(SplitLines(logic)))
  }

  lemma ParseDeclsSnoc(b: Behaviour, ds: seq<Decl>, d: Decl)
    ensures ParseDecls(b, ds + [d]) == Apply(ParseDecls(b, ds), d)
  {
    assert (ds + [d])[..|ds|] == ds;
  }

  /** With no idle declaration the idle action is what it was (for a fresh nanobot, unset). */
  lemma {:induction false} IdleUntouched(b: Behaviour, ds: seq<Decl>)
    requires forall j :: 0 <= j < |ds| ==> !ds[j].IdleDecl?
    ensures ParseDecls(b, ds).idle == b.idle
  {
    if ds != [] {
      var n := |ds| - 1;
      var init := ds[..n];
      assert forall j :: 0 <= j < n ==> init[j] == ds[j];
      IdleUntouched(b, init);
    }
  }

  /** The idle action is set by the last idle declaration, to its action. */
  lemma {:induction false} IdleLastWins(b: Behaviour, ds: seq<Decl>, k: nat)
    requires k < |ds| && ds[k].IdleDecl?
    requires forall j :: k < j < |ds| ==> !ds[j].IdleDecl?
    ensures ParseDecls(b, ds).idle == Some(ds[k].action)
  {
    var n := |ds| - 1;
    var init := ds[..n];
    if k < n {
      assert init[k] == ds[k];
      assert forall j :: k < j < n ==> init[j] == ds[j];
      IdleLastWins(b, init, k);
    }
  }

  /** An `on` declaration for event `e`. */
  predicate Binds(d: Decl, e: string) {
    d.OnDecl? && d.event == e
  }

  /** With no declaration for event `e`, its binding is what it was. */
  lemma {:induction false} EventsUntouched(b: Behaviour, ds: seq<Decl>, e: string)
    requires forall j :: 0 <= j < |ds| ==> !Binds(ds[j], e)
    ensures e in ParseDecls(b, ds).events <==> e in b.events
    ensures e in b.events ==> ParseDecls(b, ds).events[e] == b.events[e]
  {
    if ds != [] {
      var n := |ds| - 1;
      var init := ds[..n];
      assert forall j :: 0 <= j < n ==> init[j] == ds[j];
      EventsUntouched(b, init, e);
    }
  }

  /** Event `e` is bound by the last declaration for it, to that declaration's action. */
  lemma {:induction false} EventsLastWins(b: Behaviour, ds: seq<Decl>, e: string, k: nat)
    requires k < |ds| && Binds(ds[k], e)
    requires forall j :: k < j < |ds| ==> !Binds(ds[j], e)
    ensures e in ParseDecls(b, ds).events && ParseDecls(b, ds).events[e] == ds[k].action
  {
    var n := |ds| - 1;
    var init := ds[..n];
    if k < n {
      assert !Binds(ds[n], e);
      assert init[k] == ds[k];
      assert forall j :: k < j < n ==> init[j] == ds[j];
      EventsLastWins(b, init, e, k);
    }
  }

  /** Every event bound after the declarations was bound before or is named by one of them. */
  lemma {:induction false} EventsComeFromDecls(b: Behaviour, ds: seq<Decl>, e: string)
    requires e in ParseDecls(b, ds).events
    ensures e in b.events || exists k :: 0 <= k < |ds| && Binds(ds[k], e)
  {
    if ds != [] {
      var n := |ds| - 1;
      if !Binds(ds[n], e) {
        EventsComeFromDecls(b, ds[..n], e);
        if e !in b.events {
          var k :| 0 <= k < n && Binds(ds[..n][k], e);
          assert ds[k] == ds[..n][k];
        }
      }
    }
  }

  /** A script's idle action is the one its last `idle` line declares. */
  lemma ScriptIdleLastWins(logic: string, k: nat)
    requires k < |SplitLines(logic)| && Classify(SplitLines(logic)[k]).IdleDecl?
    requires forall j :: k < j < |SplitLines(logic)| ==> !Classify(SplitLines(logic)[j]).IdleDecl?
    ensures ParseScript(logic).idle == Some(Classify(SplitLines(logic)[k]).action)
  {
    IdleLastWins(NoBehaviour, Declarations(SplitLines(logic)), k);
  }

  /** A script with no `idle` line leaves the idle action unset. */
  lemma ScriptNoIdle(logic: string)
    requires forall j :: 0 <= j < |SplitLines(logic)| ==> !Classify(SplitLines(logic)[j]).IdleDecl?
    ensures ParseScript(logic).idle == None
  {
    IdleUntouched(NoBehaviour, Declarations(SplitLines(logic)));
  }

  /** A script binds event `e` to the action of its last `on e` line. */
  lemma ScriptEventLastWins(logic: string, e: string, k: nat)
    requires k < |SplitLines(logic)| && Binds(Classify(SplitLines(logic)[k]), e)
    requires forall j :: k < j < |SplitLines(logic)| ==> !Binds(Classify(SplitLines(logic)[j]), e)
    ensures e in ParseScript(logic).events
    ensures ParseScript(logic).events[e] == Classify(SplitLines(logic)[k]).action
  {
    EventsLastWins(NoBehaviour, Declarations(SplitLines(logic)), e, k);
  }

  /** Declarations applied to no behaviour bind an event exactly when one of them names it. */
  lemma EventsBound(ds: seq<Decl>, e: string)
    ensures e in ParseDecls(NoBehaviour, ds).events <==> exists k :: 0 <= k < |ds| && Binds(ds[k], e)
  {
    if e in ParseDecls(NoBehaviour, ds).events {
      EventsComeFromDecls(NoBehaviour, ds, e);
    }
    if k :| 0 <= k < |ds| && Binds(ds[k], e) {
      EventsLastWins(NoBehaviour, ds, e, LastBinding(ds, e, k));
    }
  }

  /** The position of the last declaration for event `e`, at or after `k`. */
  function LastBinding(ds: seq<Decl>, e: string, k: nat): (last: nat)
    requires k < |ds| && Binds(ds[k], e)
    ensures k <= last < |ds| && Binds(ds[last], e)
    ensures forall j :: last < j < |ds| ==> !Binds(ds[j], e)
    decreases |ds| - k
  {
    if exists j :: k < j < |ds| && Binds(ds[j], e) then
      var j :| k < j < |ds| && Binds(ds[j], e);
      LastBinding(ds, e, j)
    else k
  }

  /** An event or action word: non-empty, no white space. */
  predicate IsWord(s: string) {
    s != [] && NoSpace(s)
  }

  /** An idle action as a script can declare it: non-empty, no surrounding white space, on one line. */
  predicate IsIdleText(s: string) {
    s != [] && Trimmed(s) && NoLineBreak(s)
  }

  /** What any declaration read from a line looks like. */
  predicate WellFormedDecl(d: Decl) {
    match d
    case IdleDecl(a) => IsIdleText(a)
    case OnDecl(e, a) => IsWord(e) && IsWord(a)
    case Ignored => true
  }

  /** What any parsed behaviour looks like. */
  predicate WellFormed(b: Behaviour) {
    && (b.idle.Some? ==> IsIdleText(b.idle.value))
    && (forall e :: e in b.events ==> IsWord(e) && IsWord(b.events[e]))
  }

  lemma InfixChars(s: string, i: nat, c: char)
    requires i <= |s| && c in s[i..]
    ensures c in s
  {
    var j :| 0 <= j < |s[i..]| && s[i..][j] == c;
    assert s[i + j] == c;
  }

  /**
   * A line without line boundaries declares a non-empty trimmed idle action,
   * two words, or nothing.
   */
  lemma ClassifyWellFormed(line: string)
    requires NoLineBreak(line)
    ensures WellFormedDecl(Classify(line))
  {
    var l := Strip(line);
    if StartsWith(l, "idle ") {
      var u := l[5..];
      assert IsSpace(l[4]);
      assert !IsSpace(u[|u| - 1]) by { assert u[|u| - 1] == l[|l| - 1]; }
      var a := Strip(u);
      forall i | 0 <= i < |a| ensures !IsLineBreak(a[i]) {
        assert a[i] in u;
        InfixChars(l, 5, a[i]);
      }
    }
  }

  /** Applying well-formed declarations keeps a behaviour well formed. */
  lemma {:induction false} ParseDeclsWellFormed(b: Behaviour, ds: seq<Decl>)
    requires WellFormed(b)
    requires forall k :: 0 <= k < |ds| ==> WellFormedDecl(ds[k])
    ensures WellFormed(ParseDecls(b, ds))
  {
    if ds != [] {
      ParseDeclsWellFormed(b, ds[..|ds| - 1]);
    }
  }

  /**
   * Whatever the script, the idle action is unset or a non-empty single-line text
   * with no surrounding white space, and every event and action is a single word.
   */
  lemma ParseScriptWellFormed(logic: string)
    ensures WellFormed(ParseScript(logic))
  {
    var lines := SplitLines(logic);
    forall k | 0 <= k < |lines| ensures WellFormedDecl(Declarations(lines)[k]) {
      ClassifyWellFormed(lines[k]);
    }
    ParseDeclsWellFormed(NoBehaviour, Declarations(lines));
  }

  /** The line that declares `d`: `idle <a>` or `on <e> <a>` (an empty line declares nothing). */
  function Render(d: Decl): string {
    match d
    case IdleDecl(a) => "idle " + a
    case OnDecl(e, a) => "on " + e + " " + a
    case Ignored => ""
  }

  /** Reading a rendered declaration gives it back. */
  lemma ClassifyRender(d: Decl)
    requires WellFormedDecl(d) && !d.Ignored?
    ensures Render(d) != [] && NoLineBreak(Render(d))
    ensures Classify(Render(d)) == d
  {
    match d
    case IdleDecl(a) => ClassifyIdleLine(a);
    case OnDecl(e, a) => ClassifyOnLine(e, a);
  }

  lemma ClassifyIdleLine(a: string)
    requires IsIdleText(a)
    ensures NoLineBreak("idle " + a)
    ensures Classify("idle " + a) == IdleDecl(a)
  {
    var l := "idle " + a;
    assert Strip(l) == l by {
      assert l[|l| - 1] == a[|a| - 1];
      assert Trimmed(l);
    }
    assert StartsWith(l, "idle ") by { assert l[..5] == "idle "; }
    assert Strip(l[5..]) == a by { assert l[5..] == a; }
    forall i | 5 <= i < |l| ensures !IsLineBreak(l[i]) {
      assert l[i] == a[i - 5];
    }
  }

  lemma ClassifyOnLine(e: string, a: string)
    requires IsWord(e) && IsWord(a)
    ensures NoLineBreak("on " + e + " " + a)
    ensures Classify("on " + e + " " + a) == OnDecl(e, a)
  {
    var l := "on " + e + " " + a;
    OnLineNoBreak(e, a);
    assert Strip(l) == l by {
      assert l[|l| - 1] == a[|a| - 1];
      assert Trimmed(l);
    }
    assert !StartsWith(l, "idle ") by { assert l[0] == 'o'; }
    assert StartsWith(l, "on ") by { assert l[..3] == "on "; }
    assert SplitWs(l[3..]) == [e, a] by {
      assert l[3..] == e + " " + a;
      SplitWsPair(e, a);
    }
  }

  lemma OnLineNoBreak(e: string, a: string)
    requires IsWord(e) && IsWord(a)
    ensures NoLineBreak("on " + e + " " + a)
  {
    var l := "on " + e + " " + a;
    forall i | 0 <= i < |l| ensures !IsLineBreak(l[i]) {
      LineBreakIsSpace(l[i]);
      if i >= 3 + |e| + 1 {
        assert l[i] == a[i - 3 - |e| - 1];
      } else if 3 <= i < 3 + |e| {
        assert l[i] == e[i - 3];
      }
    }
  }

  /** The lines of declarations `ds`, in order. */
  function RenderAll(ds: seq<Decl>): (lines: seq<string>)
    ensures |lines| == |ds|
    ensures forall i :: 0 <= i < |ds| ==> lines[i] == Render(ds[i])
    decreases |ds|
  {
    if ds == [] then [] else RenderAll(ds[..|ds| - 1]) + [Render(ds[|ds| - 1])]
  }

  /** One `on` declaration per binding of `m`, in some order. */
  ghost function EventDecls(m: map<string, string>): (ds: seq<Decl>)
    ensures forall k :: 0 <= k < |ds| ==> ds[k].OnDecl? && ds[k].event in m && ds[k].action == m[ds[k].event]
    decreases |m|
  {
    if m == map[] then []
    else
      var e :| e in m;
      EventDecls(m - {e}) + [OnDecl(e, m[e])]
  }

  lemma {:induction false} EventDeclsParse(m: map<string, string>)
    ensures ParseDecls(NoBehaviour, EventDecls(m)) == Behaviour(None, m)
    decreases |m|
  {
    if m != map[] {
      var e :| e in m && EventDecls(m) == EventDecls(m - {e}) + [OnDecl(e, m[e])];
      EventDeclsParse(m - {e});
      ParseDeclsSnoc(NoBehaviour, EventDecls(m - {e}), OnDecl(e, m[e]));
      MapRestore(m, e);
    }
  }

  lemma MapRestore(m: map<string, string>, e: string)
    requires e in m
    ensures (m - {e})[e := m[e]] == m
  {
    var r := (m - {e})[e := m[e]];
    assert r.Keys == m.Keys;
    forall x | x in m ensures r[x] == m[x] {
      if x != e {
        assert x in m - {e};
      }
    }
  }

  /** The declarations of behaviour `b`: its event bindings, then its idle action. */
  ghost function DeclsOf(b: Behaviour): seq<Decl> {
    EventDecls(b.events) + if b.idle.Some? then [IdleDecl(b.idle.value)] else []
  }

  /** A script that declares exactly `b`, one line per declaration. */
  ghost function Serialize(b: Behaviour): string {
    JoinLines(RenderAll(DeclsOf(b)))
  }

  /** A script of rendered declarations, one per line, reads back as those declarations. */
  lemma ReadRendered(ds: seq<Decl>)
    requires forall k :: 0 <= k < |ds| ==> WellFormedDecl(ds[k]) && !ds[k].Ignored?
    ensures Declarations(SplitLines(JoinLines(RenderAll(ds)))) == ds
  {
    var lines := RenderAll(ds);
    forall k | 0 <= k < |ds| ensures lines[k] != [] && NoLineBreak(lines[k]) && Classify(lines[k]) == ds[k] {
      ClassifyRender(ds[k]);
    }
    SplitJoinLines(lines);
  }

  /** The declarations of a well-formed behaviour are well formed and each declares something. */
  lemma DeclsOfWellFormed(b: Behaviour)
    requires WellFormed(b)
    ensures forall k :: 0 <= k < |DeclsOf(b)| ==> WellFormedDecl(DeclsOf(b)[k]) && !DeclsOf(b)[k].Ignored?
  {
    var events := EventDecls(b.events);
    assert forall k :: 0 <= k < |events| ==> WellFormedDecl(events[k]) && !events[k].Ignored?;
  }

  /** Reading back a serialised well-formed behaviour gives the behaviour. */
  lemma RoundTrip(b: Behaviour)
    requires WellFormed(b)
    ensures ParseScript(Serialize(b)) == b
  {
    var ds := DeclsOf(b);
    DeclsOfWellFormed(b);
    ReadRendered(ds);
    assert ParseScript(Serialize(b)) == ParseDecls(NoBehaviour, ds);
    var events := EventDecls(b.events);
    EventDeclsParse(b.events);
    if b.idle.Some? {
      ParseDeclsSnoc(NoBehaviour, events, IdleDecl(b.idle.value));
    } else {
      assert ds == events;
    }
  }

  /** Parsing is idempotent: serialising a parsed behaviour and parsing it again changes nothing. */
  lemma ParseIdempotent(logic: string)
    ensures ParseScript(Serialize(ParseScript(logic))) == ParseScript(logic)
  {
    ParseScriptWellFormed(logic);
    RoundTrip(ParseScript(logic));
  }

  /**
   * An idle line followed by two `on` lines for the same event, for any idle
   * action, event and two actions: the idle action is kept and the later `on`
   * line wins.
   */
  lemma ParseExample(idle: string, e: string, a1: string, a2: string)
    requires IsIdleText(idle) && IsWord(e) && IsWord(a1) && IsWord(a2)
    ensures ParseScript(JoinLines(["idle " + idle, "on " + e + " " + a1, "on " + e + " " + a2]))
         == Behaviour(Some(idle), map[e := a2])
  {
    var ds := [IdleDecl(idle), OnDecl(e, a1), OnDecl(e, a2)];
    assert RenderAll(ds) == ["idle " + idle, "on " + e + " " + a1, "on " + e + " " + a2];
    ReadRendered(ds);
    ExampleFold(ds);
  }

  lemma ExampleFold(ds: seq<Decl>)
    requires |ds| == 3 && ds[0].IdleDecl? && ds[1].OnDecl? && ds[2].OnDecl? && ds[1].event == ds[2].event
    ensures ParseDecls(NoBehaviour, ds) == Behaviour(Some(ds[0].action), map[ds[2].event := ds[2].action])
  {
    var b1 := Behaviour(Some(ds[0].action), map[]);
    var b2 := b1.(events := map[ds[1].event := ds[1].action]);
    assert ParseDecls(NoBehaviour, ds[..1]) == b1 by {
      ParseDeclsSnoc(NoBehaviour, [], ds[0]);
      assert [] + [ds[0]] == ds[..1];
    }
    assert ParseDecls(NoBehaviour, ds[..2]) == b2 by {
      ParseDeclsSnoc(NoBehaviour, ds[..1], ds[1]);
      assert ds[..1] + [ds[1]] == ds[..2];
    }
    ParseDeclsSnoc(NoBehaviour, ds[..2], ds[2]);
    assert ds[..2] + [ds[2]] == ds;
    assert b2.events[ds[2].event := ds[2].action] == map[ds[2].event := ds[2].action];
  }
}
