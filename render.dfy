/** Step 4 of the dispatch route: the template body is rewritten once per
    parameter entry, in entry order, each pass a global replacement of the
    placeholders for that entry's key by its value. */
module Templating {
  import opened Wrappers
  import opened Placeholder
  import opened Interpolation

  /** Every key is read literally by the pattern and no value holds a
      replacement pattern. */
  predicate Renderable(entries: seq<(string, string)>) {
    forall k | 0 <= k < |entries| :: SafeKey(entries[k].0) && PlainValue(entries[k].1)
  }

  /** The passes of the loop, one per entry, each on the text the previous
      one produced. */
  function Interpolate(body: string, entries: seq<(string, string)>): string
    requires Renderable(entries)
    decreases |entries|
  {
    if entries == [] then body
    else Interpolate(ReplaceAll(body, entries[0].0, entries[0].1), entries[1..])
  }

  /** `message_params` as the route sees it: anything that is not a non-null
      object, or the entries of an object in enumeration order, each value
      already converted to its string form. */
  datatype MessageParams = NotAnObject | Entries(entries: seq<(string, string)>)

  predicate RenderableParams(params: MessageParams) {
    params.Entries? ==> Renderable(params.entries)
  }

  /** What the interpolation step leaves in `message`: the template body, or
      null when the stored body is null; or the TypeError of calling
      `replace` on a null body, which happens as soon as there is one entry. */
  datatype Rendering = Rendered(message: Option<string>) | NullReplace

  /** The outcome of the interpolation step, as a function of its inputs. */
  function Render(content: Option<string>, params: MessageParams): Rendering
    requires RenderableParams(params)
  {
    match params
    case NotAnObject => Rendered(content)
    case Entries(entries) =>
      if entries == [] then Rendered(content)
      else if content.None? then NullReplace
      else Rendered(Some(Interpolate(content.value, entries)))
  }

  /** The loop of the route: `message` starts as the template body and each
      entry's pass reassigns it. */
  method RenderMessage(content: Option<string>, params: MessageParams) returns (r: Rendering)
    requires RenderableParams(params)
    ensures r == Render(content, params)
  {
    var message := content;
    if params.Entries? {
      var entries := params.entries;
      for i := 0 to |entries|
        invariant message.None? ==> i == 0 && content.None?
        invariant message.Some? ==> content.Some?
        invariant message.Some? ==> Interpolate(message.value, entries[i..]) == Interpolate(content.value, entries)
      {
        if message.None? {
          return NullReplace;
        }
        var (key, value) := entries[i];
        assert entries[i..][1..] == entries[i + 1..];
        message := Some(ReplaceAll(message.value, key, value));
      }
      assert entries[|entries|..] == [];
    }
    return Rendered(message);
  }

  /** The passes happen in entry order: the last entry's pass runs on the
      result of all the earlier ones. */
  lemma {:induction false} InterpolateSnoc(body: string, entries: seq<(string, string)>, key: string, value: string)
    requires Renderable(entries + [(key, value)])
    ensures Renderable(entries) && SafeKey(key) && PlainValue(value)
    ensures Interpolate(body, entries + [(key, value)]) == ReplaceAll(Interpolate(body, entries), key, value)
    decreases |entries|
  {
    var all := entries + [(key, value)];
    assert forall k | 0 <= k < |entries| :: entries[k] == all[k];
    assert all[|entries|] == (key, value);
    if entries == [] {
      assert all[1..] == [];
    } else {
      assert all[1..] == entries[1..] + [(key, value)];
      InterpolateSnoc(ReplaceAll(body, entries[0].0, entries[0].1), entries[1..], key, value);
    }
  }

  /** A body without `{{` comes out of every pass unchanged. */
  lemma {:induction false} InterpolateWithoutBraces(body: string, entries: seq<(string, string)>)
    requires Renderable(entries) && NoDoubleBrace(body)
    ensures Interpolate(body, entries) == body
    decreases |entries|
  {
    if entries != [] {
      ReplaceAllWithoutBraces(body, entries[0].0, entries[0].1);
      InterpolateWithoutBraces(body, entries[1..]);
    }
  }

  /** With no parameters to apply the message is the stored body exactly, and
      a body without `{{` is left exactly as stored whatever the
      parameters. */
  lemma RenderUnchanged(content: Option<string>, params: MessageParams)
    requires RenderableParams(params)
    ensures params.NotAnObject? || params.entries == [] ==> Render(content, params) == Rendered(content)
    ensures content.Some? && NoDoubleBrace(content.value) ==> Render(content, params) == Rendered(content)
  {
    if content.Some? && NoDoubleBrace(content.value) && params.Entries? {
      InterpolateWithoutBraces(content.value, params.entries);
    }
  }

  /** A body with placeholders fails on a null body only when there is
      something to apply. */
  lemma RenderThrowsOnlyOnNull(content: Option<string>, params: MessageParams)
    requires RenderableParams(params)
    ensures Render(content, params) == NullReplace
        <==> content.None? && params.Entries? && params.entries != []
  {
  }

  lemma InterpolateOne(body: string, key: string, value: string)
    requires SafeKey(key) && PlainValue(value)
    ensures Renderable([(key, value)])
    ensures Interpolate(body, [(key, value)]) == ReplaceAll(body, key, value)
  {
    assert [(key, value)][1..] == [];
  }

  lemma InterpolateTwo(body: string, k1: string, v1: string, k2: string, v2: string)
    requires SafeKey(k1) && PlainValue(v1) && SafeKey(k2) && PlainValue(v2)
    ensures Renderable([(k1, v1), (k2, v2)])
    ensures Interpolate(body, [(k1, v1), (k2, v2)]) == ReplaceAll(ReplaceAll(body, k1, v1), k2, v2)
  {
    assert [(k1, v1), (k2, v2)][1..] == [(k2, v2)];
    InterpolateOne(ReplaceAll(body, k1, v1), k2, v2);
  }

  /** A placeholder for a name that no entry's pattern matches, with or
      without white space inside its braces, survives the loop verbatim
      wherever it stands, and the text on each side is rendered as if the
      other side were not there. */
  lemma {:induction false} InterpolateAroundOtherName(a: string, t: string, name: string, rest: string,
                                                      entries: seq<(string, string)>)
    requires Renderable(entries) && SafeKey(name) && IsPlaceholder(t, name)
    requires forall k | 0 <= k < |entries| :: !IsPlaceholder(t, entries[k].0)
    ensures Interpolate(a + (t + rest), entries) == Interpolate(a, entries) + (t + Interpolate(rest, entries))
    decreases |entries|
  {
    if entries != [] {
      var (key, value) := entries[0];
      var tail := entries[1..];
      ReplaceAllAroundOtherName(a, t, name, rest, key, value);
      assert forall k | 0 <= k < |tail| :: tail[k] == entries[k + 1];
      InterpolateAroundOtherName(ReplaceAll(a, key, value), t, name, ReplaceAll(rest, key, value), tail);
    }
  }

  /** In terms of names: with keys free of white space, a placeholder
      `{{ name }}`, with any white space inside its braces, whose name is no
      entry's key survives the loop verbatim. */
  lemma UnlistedPlaceholderKept(a: string, w1: string, name: string, w2: string, rest: string,
                                entries: seq<(string, string)>)
    requires Renderable(entries) && SafeKey(name) && NoSpace(name) && AllSpace(w1) && AllSpace(w2)
    requires forall k | 0 <= k < |entries| :: NoSpace(entries[k].0) && entries[k].0 != name
    ensures Interpolate(a + ("{{" + w1 + name + w2 + "}}" + rest), entries)
         == Interpolate(a, entries) + ("{{" + w1 + name + w2 + "}}" + Interpolate(rest, entries))
  {
    var t := "{{" + w1 + name + w2 + "}}";
    assert IsPlaceholder(t, name);
    forall k | 0 <= k < |entries|
      ensures !IsPlaceholder(t, entries[k].0)
    {
      if IsPlaceholder(t, entries[k].0) {
        PlaceholderNamesOneKey(t, name, entries[k].0);
      }
    }
    InterpolateAroundOtherName(a, t, name, rest, entries);
  }

  /** A body in which no entry's key has a placeholder comes out of the loop
      unchanged. */
  lemma {:induction false} InterpolateWithoutPlaceholder(body: string, entries: seq<(string, string)>)
    requires Renderable(entries)
    requires forall k, p | 0 <= k < |entries| && 0 <= p <= |body| :: !PlaceholderAt(body, entries[k].0, p)
    ensures Interpolate(body, entries) == body
    decreases |entries|
  {
    if entries != [] {
      var tail := entries[1..];
      ReplaceAllWithoutPlaceholder(body, entries[0].0, entries[0].1);
      assert forall k | 0 <= k < |tail| :: tail[k] == entries[k + 1];
      InterpolateWithoutPlaceholder(body, tail);
    }
  }

  /** A template written as plain text and placeholders `{{name}}`. */
  datatype Segment = Text(text: string) | Slot(name: string)

  function Piece(seg: Segment): string {
    match seg
    case Text(t) => t
    case Slot(name) => "{{" + name + "}}"
  }

  function Join(segs: seq<Segment>): string
    decreases |segs|
  {
    if segs == [] then [] else Piece(segs[0]) + Join(segs[1..])
  }

  /** Text without `{`, and placeholders whose names are read literally and
      hold no white space. */
  predicate PlainSegment(seg: Segment) {
    match seg
    case Text(t) => '{' !in t
    case Slot(name) => SafeKey(name) && NoSpace(name)
  }

  predicate PlainSegments(segs: seq<Segment>) {
    forall i | 0 <= i < |segs| :: PlainSegment(segs[i])
  }

  /** Values that bring no `{` into the message. */
  predicate BraceFree(entries: seq<(string, string)>) {
    forall k | 0 <= k < |entries| :: '{' !in entries[k].1
  }

  /** The value of the first entry for `name`, if there is one. */
  function FirstValue(entries: seq<(string, string)>, name: string): (r: Option<string>)
    ensures r.Some? ==> (name, r.value) in entries
    ensures r.None? ==> forall k | 0 <= k < |entries| :: entries[k].0 != name
    decreases |entries|
  {
    if entries == [] then None
    else if entries[0].0 == name then Some(entries[0].1)
    else FirstValue(entries[1..], name)
  }

  /** What a segment becomes: a placeholder with an entry becomes that
      entry's value; text, and a placeholder with no entry, stay. */
  function Resolve(seg: Segment, entries: seq<(string, string)>): Segment {
    match seg
    case Text(_) => seg
    case Slot(name) =>
      match FirstValue(entries, name)
      case Some(value) => Text(value)
      case None => seg
  }

  function ResolveAll(segs: seq<Segment>, entries: seq<(string, string)>): seq<Segment>
    decreases |segs|
  {
    if segs == [] then [] else [Resolve(segs[0], entries)] + ResolveAll(segs[1..], entries)
  }

  /** ResolveAll resolves each segment on its own. */
  lemma {:induction false} ResolveAllPointwise(segs: seq<Segment>, entries: seq<(string, string)>)
    ensures |ResolveAll(segs, entries)| == |segs|
    ensures forall i | 0 <= i < |segs| :: ResolveAll(segs, entries)[i] == Resolve(segs[i], entries)
    decreases |segs|
  {
    if segs != [] {
      ResolveAllPointwise(segs[1..], entries);
    }
  }

  lemma PlainTail(segs: seq<Segment>)
    requires segs != [] && PlainSegments(segs)
    ensures PlainSegment(segs[0]) && PlainSegments(segs[1..])
  {
    assert forall i | 0 <= i < |segs| - 1 :: segs[1..][i] == segs[i + 1];
  }

  /** One pass over a plain template fills the placeholders for the key and
      keeps everything else. */
  lemma {:induction false} ReplaceAllTemplate(segs: seq<Segment>, key: string, value: string)
    requires SafeKey(key) && PlainValue(value) && PlainSegments(segs)
    ensures ReplaceAll(Join(segs), key, value) == Join(ResolveAll(segs, [(key, value)]))
    decreases |segs|
  {
    var one := [(key, value)];
    assert one[1..] == [];
    if segs != [] {
      PlainTail(segs);
      var tail := Join(segs[1..]);
      ReplaceAllTemplate(segs[1..], key, value);
      match segs[0]
      case Text(t) =>
        ReplaceAllAfterText(t, tail, key, value);
      case Slot(name) =>
        if name == key {
          PlainPlaceholder(key);
          ReplaceAllAfterPlaceholder("{{" + key + "}}", tail, key, value);
        } else {
          ReplaceAllAfterOtherName(name, tail, key, value);
        }
    }
  }

  /** Resolving against one entry and then against the others is resolving
      against all of them. */
  lemma {:induction false} ResolveInTurn(segs: seq<Segment>, key: string, value: string, entries: seq<(string, string)>)
    ensures ResolveAll(ResolveAll(segs, [(key, value)]), entries) == ResolveAll(segs, [(key, value)] + entries)
    decreases |segs|
  {
    var one := [(key, value)];
    assert one[1..] == [] && (one + entries)[1..] == entries;
    if segs != [] {
      ResolveInTurn(segs[1..], key, value, entries);
    }
  }

  /** Filling placeholders with values without `{` keeps a template plain. */
  lemma {:induction false} ResolveKeepsPlain(segs: seq<Segment>, key: string, value: string)
    requires PlainSegments(segs) && '{' !in value
    ensures PlainSegments(ResolveAll(segs, [(key, value)]))
    decreases |segs|
  {
    assert [(key, value)][1..] == [];
    if segs != [] {
      PlainTail(segs);
      ResolveKeepsPlain(segs[1..], key, value);
      var r := ResolveAll(segs, [(key, value)]);
      assert forall i | 1 <= i < |r| :: r[i] == ResolveAll(segs[1..], [(key, value)])[i - 1];
    }
  }

  lemma ResolveNothing(segs: seq<Segment>)
    ensures ResolveAll(segs, []) == segs
  {
    ResolveAllPointwise(segs, []);
  }

  /** The loop on a plain template: every placeholder with an entry becomes
      the value of the first entry for its name, every occurrence of it;
      placeholders with no entry, and the text between placeholders, are
      kept verbatim. */
  lemma {:induction false} InterpolateTemplate(segs: seq<Segment>, entries: seq<(string, string)>)
    requires PlainSegments(segs) && Renderable(entries) && BraceFree(entries)
    ensures Interpolate(Join(segs), entries) == Join(ResolveAll(segs, entries))
    decreases |entries|
  {
    if entries == [] {
      ResolveNothing(segs);
    } else {
      var (key, value) := entries[0];
      var tail := entries[1..];
      ReplaceAllTemplate(segs, key, value);
      assert entries[0] in entries;
      ResolveKeepsPlain(segs, key, value);
      assert forall k | 0 <= k < |tail| :: tail[k] == entries[k + 1];
      InterpolateTemplate(ResolveAll(segs, [(key, value)]), tail);
      ResolveInTurn(segs, key, value, tail);
      assert [(key, value)] + tail == entries;
    }
  }

  /** The template of the template editor and a recipient's parameters. */
  const Invitation: seq<Segment> :=
    [Text("Hello "), Slot("name"), Text(", you are invited to our event on "), Slot("date"), Text(" at "),
     Slot("venue"), Text(".")]
  const Guest: seq<(string, string)> := [("name", "Ada"), ("date", "May 1"), ("venue", "the Town Hall")]
  const GuestWithoutVenue: seq<(string, string)> := [("name", "Ada"), ("date", "May 1")]

  lemma PlainCons(seg: Segment, segs: seq<Segment>)
    requires PlainSegment(seg) && PlainSegments(segs)
    ensures PlainSegments([seg] + segs)
  {
    assert forall i | 1 <= i < |segs| + 1 :: ([seg] + segs)[i] == segs[i - 1];
  }

  lemma InvitationTexts()
    ensures '{' !in "Hello " && '{' !in " at " && '{' !in "."
  {
  }

  lemma InvitationLongText()
    ensures '{' !in ", you are invited to our event on "
  {
  }

  lemma InvitationNames()
    ensures PlainSegment(Slot("name")) && PlainSegment(Slot("date")) && PlainSegment(Slot("venue"))
  {
  }

  lemma InvitationIsPlain()
    ensures PlainSegments(Invitation)
  {
    InvitationTexts();
    InvitationLongText();
    InvitationNames();
    var tail := [Text(".")];
    PlainCons(Text("."), []);
    PlainCons(Slot("venue"), tail);
    tail := [Slot("venue")] + tail;
    PlainCons(Text(" at "), tail);
    tail := [Text(" at ")] + tail;
    PlainCons(Slot("date"), tail);
    tail := [Slot("date")] + tail;
    PlainCons(Text(", you are invited to our event on "), tail);
    tail := [Text(", you are invited to our event on ")] + tail;
    PlainCons(Slot("name"), tail);
    tail := [Slot("name")] + tail;
    PlainCons(Text("Hello "), tail);
    tail := [Text("Hello ")] + tail;
    assert tail == Invitation;
  }

  lemma JoinCons(seg: Segment, segs: seq<Segment>)
    ensures Join([seg] + segs) == Piece(seg) + Join(segs)
  {
    assert ([seg] + segs)[1..] == segs;
  }

  lemma SlotTexts()
    ensures Piece(Slot("name")) == "{{name}}" && Piece(Slot("date")) == "{{date}}" && Piece(Slot("venue")) == "{{venue}}"
  {
  }

  /** The template reads `Hello {{name}}, you are invited to our event on
      {{date}} at {{venue}}.` */
  lemma InvitationText()
    ensures Join(Invitation)
         == "Hello " + ("{{name}}" + (", you are invited to our event on " + ("{{date}}" + (" at " + ("{{venue}}" + ".")))))
  {
    SlotTexts();
    var t0 := [Text(".")];
    JoinCons(Text("."), []);
    var j0 := ".";
    assert Join(t0) == j0;
    var t1 := [Slot("venue")] + t0;
    JoinCons(Slot("venue"), t0);
    var j1 := "{{venue}}" + j0;
    assert Join(t1) == j1;
    var t2 := [Text(" at ")] + t1;
    JoinCons(Text(" at "), t1);
    var j2 := " at " + j1;
    assert Join(t2) == j2;
    var t3 := [Slot("date")] + t2;
    JoinCons(Slot("date"), t2);
    var j3 := "{{date}}" + j2;
    assert Join(t3) == j3;
    var t4 := [Text(", you are invited to our event on ")] + t3;
    JoinCons(Text(", you are invited to our event on "), t3);
    var j4 := ", you are invited to our event on " + j3;
    assert Join(t4) == j4;
    var t5 := [Slot("name")] + t4;
    JoinCons(Slot("name"), t4);
    var j5 := "{{name}}" + j4;
    assert Join(t5) == j5;
    var t6 := [Text("Hello ")] + t5;
    JoinCons(Text("Hello "), t5);
    assert Join(t6) == "Hello " + j5;
    assert t6 == Invitation;
  }

  lemma GuestKeys()
    ensures SafeKey("name") && SafeKey("date") && SafeKey("venue")
  {
  }

  lemma GuestValues()
    ensures PlainValue("Ada") && PlainValue("May 1") && PlainValue("the Town Hall")
    ensures '{' !in "Ada" && '{' !in "May 1" && '{' !in "the Town Hall"
  {
  }

  lemma GuestIsPlain()
    ensures Renderable(Guest) && BraceFree(Guest)
    ensures Renderable(GuestWithoutVenue) && BraceFree(GuestWithoutVenue)
  {
    GuestKeys();
    GuestValues();
  }

  lemma InvitationResolvedAll()
    ensures ResolveAll(Invitation, Guest)
         == [Text("Hello "), Text("Ada"), Text(", you are invited to our event on "), Text("May 1"),
             Text(" at "), Text("the Town Hall"), Text(".")]
  {
  }

  lemma InvitationResolvedTwo()
    ensures ResolveAll(Invitation, GuestWithoutVenue)
         == [Text("Hello "), Text("Ada"), Text(", you are invited to our event on "), Text("May 1"),
             Text(" at "), Slot("venue"), Text(".")]
  {
  }

  /** `Hello {{name}}, you are invited to our event on {{date}} at {{venue}}.`
      becomes `Hello Ada, you are invited to our event on May 1 at the Town
      Hall.`; without a `venue` entry, `{{venue}}` stays. */
  lemma InvitationExample()
    ensures Renderable(Guest) && Renderable(GuestWithoutVenue)
    ensures Interpolate(Join(Invitation), Guest)
         == Join([Text("Hello "), Text("Ada"), Text(", you are invited to our event on "), Text("May 1"),
                  Text(" at "), Text("the Town Hall"), Text(".")])
    ensures Interpolate(Join(Invitation), GuestWithoutVenue)
         == Join([Text("Hello "), Text("Ada"), Text(", you are invited to our event on "), Text("May 1"),
                  Text(" at "), Slot("venue"), Text(".")])
  {
    InvitationIsPlain();
    GuestIsPlain();
    InvitationResolvedAll();
    InvitationResolvedTwo();
    InterpolateTemplate(Invitation, Guest);
    InterpolateTemplate(Invitation, GuestWithoutVenue);
  }

  /** The shorter template `Hello {{name}}, you are invited on {{date}}.` */
  const ShortInvitation: seq<Segment> :=
    [Text("Hello "), Slot("name"), Text(", you are invited on "), Slot("date"), Text(".")]

  lemma ShortInvitationText()
    ensures '{' !in ", you are invited on "
  {
  }

  lemma ShortInvitationIsPlain()
    ensures PlainSegments(ShortInvitation)
  {
    InvitationTexts();
    ShortInvitationText();
    InvitationNames();
    var tail := [Text(".")];
    PlainCons(Text("."), []);
    PlainCons(Slot("date"), tail);
    tail := [Slot("date")] + tail;
    PlainCons(Text(", you are invited on "), tail);
    tail := [Text(", you are invited on ")] + tail;
    PlainCons(Slot("name"), tail);
    tail := [Slot("name")] + tail;
    PlainCons(Text("Hello "), tail);
    tail := [Text("Hello ")] + tail;
    assert tail == ShortInvitation;
  }

  lemma ShortInvitationResolved()
    ensures ResolveAll(ShortInvitation, GuestWithoutVenue)
         == [Text("Hello "), Text("Ada"), Text(", you are invited on "), Text("May 1"), Text(".")]
  {
  }

  /** `Hello {{name}}, you are invited on {{date}}.` with `name = Ada` and
      `date = May 1` becomes `Hello Ada, you are invited on May 1.` */
  lemma ShortInvitationExample()
    ensures Renderable(GuestWithoutVenue)
    ensures Interpolate(Join(ShortInvitation), GuestWithoutVenue)
         == Join([Text("Hello "), Text("Ada"), Text(", you are invited on "), Text("May 1"), Text(".")])
  {
    ShortInvitationIsPlain();
    GuestIsPlain();
    ShortInvitationResolved();
    InterpolateTemplate(ShortInvitation, GuestWithoutVenue);
  }

  /** The key `name` leaves `{{nametag}}` verbatim. */
  lemma NametagExample()
    ensures Renderable([("name", "Ada")])
    ensures Interpolate(Join([Slot("nametag")]), [("name", "Ada")]) == Join([Slot("nametag")])
  {
    InterpolateTemplate([Slot("nametag")], [("name", "Ada")]);
  }

  /** A value can bring in a placeholder that a later entry then fills. */
  lemma ChainedPlaceholders(a: string, b: string, x: string)
    requires SafeKey(a) && SafeKey(b) && PlainValue(x)
    ensures Renderable([(a, "{{" + b + "}}"), (b, x)])
    ensures Interpolate("{{" + a + "}}", [(a, "{{" + b + "}}"), (b, x)]) == x
  {
    InterpolateTwo("{{" + a + "}}", a, "{{" + b + "}}", b, x);
    PlainPlaceholder(a);
    ReplaceAllWhole("{{" + a + "}}", a, "{{" + b + "}}");
    PlainPlaceholder(b);
    ReplaceAllWhole("{{" + b + "}}", b, x);
  }
}
