/**
 * A model of docs/examples/shared/styles.ts: the `commonStyles` token
 * registry, the component configurations derived from it by template-string
 * interpolation, and the class-name composer `combineClasses`.
 *
 * Tokens are opaque class-list strings; nothing here parses Tailwind classes.
 */
module Styles {

  datatype Option<T> = None | Some(value: T)

  // ===========================================================================
  // The class-name composer
  // ===========================================================================

  /** One argument of `combineClasses`: `string | undefined | null | false`. */
  datatype Fragment = Str(s: string) | Undefined | Null | False

  /**
   * `Boolean(f)` on the declared argument type: `undefined`, `null`, `false`
   * and the empty string are falsy, every other string is truthy.
   */
  predicate Present(f: Fragment) {
    f.Str? && f.s != ""
  }

  /** Some argument survives `filter(Boolean)`. */
  predicate AnyPresent(fs: seq<Fragment>) {
    exists i :: 0 <= i < |fs| && Present(fs[i])
  }

  /**
   * `classes.filter(Boolean)`, read off as the strings that survive. None of
   * them is empty, and the result is empty exactly when no argument is truthy.
   */
  function Survivors(fs: seq<Fragment>): (r: seq<string>)
    ensures |r| <= |fs|
    ensures forall i :: 0 <= i < |r| ==> r[i] != ""
    ensures |r| > 0 <==> AnyPresent(fs)
  {
    if fs == [] then []
    else if Present(fs[0]) then [fs[0].s] + Survivors(fs[1..])
    else
      assert AnyPresent(fs) ==> AnyPresent(fs[1..]) by {
        if AnyPresent(fs) {
          var i :| 0 <= i < |fs| && Present(fs[i]);
          assert fs[1..][i - 1] == fs[i];
        }
      }
      Survivors(fs[1..])
  }

  /** Sum of the lengths of the strings in `ws`. */
  function TotalLength(ws: seq<string>): (n: nat) {
    if ws == [] then 0 else |ws[0]| + TotalLength(ws[1..])
  }

  /**
   * `Array.prototype.join(' ')`: the strings in order with exactly one space
   * between neighbours, and nothing before the first or after the last.
   */
  function Join(ws: seq<string>): (r: string)
    ensures |ws| == 0 ==> r == ""
    ensures |ws| > 0 ==> |r| == TotalLength(ws) + |ws| - 1
  {
    if |ws| == 0 then ""
    else if |ws| == 1 then ws[0]
    else ws[0] + " " + Join(ws[1..])
  }

  /**
   * `combineClasses(...classes)` (styles.ts:90-92): the truthy arguments, in
   * order, joined with single spaces. The result is empty exactly when no
   * argument is truthy.
   */
  function CombineClasses(fs: seq<Fragment>): (r: string)
    ensures r == "" <==> !AnyPresent(fs)
  {
    var ws := Survivors(fs);
    assert |ws| > 0 ==> ws[0] in ws;
    Join(ws)
  }

  // ---------------------------------------------------------------------------
  // Filtering: order, concatenation, multiplicity
  // ---------------------------------------------------------------------------

  /** A string survives exactly when it is non-empty and given as an argument. */
  lemma {:induction false} SurvivorsMembers(fs: seq<Fragment>)
    ensures forall w :: w in Survivors(fs) <==> w != "" && Str(w) in fs
  {
    if fs != [] {
      SurvivorsMembers(fs[1..]);
      assert forall f :: f in fs <==> f == fs[0] || f in fs[1..];
    }
  }

  /** `filter` distributes over concatenation, so order is kept. */
  lemma {:induction false} SurvivorsAppend(xs: seq<Fragment>, ys: seq<Fragment>)
    ensures Survivors(xs + ys) == Survivors(xs) + Survivors(ys)
  {
    if xs == [] {
      assert xs + ys == ys;
    } else {
      assert (xs + ys)[0] == xs[0];
      assert (xs + ys)[1..] == xs[1..] + ys;
      SurvivorsAppend(xs[1..], ys);
    }
  }

  /** Every truthy string survives as often as it was given: nothing is deduplicated. */
  lemma {:induction false} SurvivorsKeepMultiplicity(fs: seq<Fragment>, w: string)
    requires w != ""
    ensures multiset(Survivors(fs))[w] == multiset(fs)[Str(w)]
  {
    if fs != [] {
      assert fs == [fs[0]] + fs[1..];
      SurvivorsKeepMultiplicity(fs[1..], w);
    }
  }

  /** When every argument is a non-empty string, all of them survive, in order. */
  lemma {:induction false} SurvivorsAllPresent(fs: seq<Fragment>, ts: seq<string>)
    requires |fs| == |ts|
    requires forall i :: 0 <= i < |ts| ==> ts[i] != "" && fs[i] == Str(ts[i])
    ensures Survivors(fs) == ts
  {
    if fs != [] {
      SurvivorsAllPresent(fs[1..], ts[1..]);
    }
  }

  // ---------------------------------------------------------------------------
  // Joining
  // ---------------------------------------------------------------------------

  /** Joining two non-empty lists puts exactly one space between the halves. */
  lemma {:induction false} JoinAppend(a: seq<string>, b: seq<string>)
    requires |a| > 0 && |b| > 0
    ensures Join(a + b) == Join(a) + " " + Join(b)
  {
    if |a| == 1 {
      assert (a + b)[1..] == b;
    } else {
      assert (a + b)[1..] == a[1..] + b;
      JoinAppend(a[1..], b);
    }
  }

  /** Joining adds the next string after one more space, left to right. */
  lemma JoinSnoc(ws: seq<string>, w: string)
    requires |ws| > 0
    ensures Join(ws + [w]) == Join(ws) + " " + w
  {
    JoinAppend(ws, [w]);
  }

  // ---------------------------------------------------------------------------
  // Properties of combineClasses
  // ---------------------------------------------------------------------------

  /** No arguments give the empty string. */
  lemma CombineNoArguments()
    ensures CombineClasses([]) == ""
  {
  }

  /**
   * Concatenation law: with a truthy argument on both sides the two results
   * are joined by one space; a side with none contributes nothing.
   */
  lemma CombineAppend(xs: seq<Fragment>, ys: seq<Fragment>)
    ensures AnyPresent(xs) && AnyPresent(ys) ==>
      CombineClasses(xs + ys) == CombineClasses(xs) + " " + CombineClasses(ys)
    ensures !AnyPresent(xs) ==> CombineClasses(xs + ys) == CombineClasses(ys)
    ensures !AnyPresent(ys) ==> CombineClasses(xs + ys) == CombineClasses(xs)
  {
    SurvivorsAppend(xs, ys);
    var a, b := Survivors(xs), Survivors(ys);
    if |a| > 0 && |b| > 0 {
      JoinAppend(a, b);
    } else if |a| == 0 {
      assert a + b == b;
    } else {
      assert a + b == a;
    }
  }

  /** A falsy argument contributes neither text nor a separator, wherever it stands. */
  lemma AbsentOmitted(xs: seq<Fragment>, f: Fragment, ys: seq<Fragment>)
    requires !Present(f)
    ensures CombineClasses(xs + [f] + ys) == CombineClasses(xs + ys)
  {
    SurvivorsAppend(xs + [f], ys);
    SurvivorsAppend(xs, [f]);
    SurvivorsAppend(xs, ys);
    assert [f][1..] == [];
    assert Survivors([f]) == [];
    assert Survivors(xs + [f]) == Survivors(xs);
  }

  /** One truthy argument among falsy ones is returned verbatim. */
  lemma SinglePresentVerbatim(xs: seq<Fragment>, w: string, ys: seq<Fragment>)
    requires w != ""
    requires !AnyPresent(xs) && !AnyPresent(ys)
    ensures CombineClasses(xs + [Str(w)] + ys) == w
  {
    SurvivorsAppend(xs + [Str(w)], ys);
    SurvivorsAppend(xs, [Str(w)]);
    assert Survivors([Str(w)]) == [w];
    assert Survivors(xs + [Str(w)] + ys) == [w];
  }

  /** Two truthy arguments are joined by one space. */
  lemma PairComposed(a: string, b: string)
    requires a != "" && b != ""
    ensures CombineClasses([Str(a), Str(b)]) == a + " " + b
  {
    CombineAllPresent([Str(a), Str(b)], [a, b]);
    assert [a, b] == [a] + [b];
    JoinSnoc([a], b);
  }

  /** Repeated arguments are kept: `combineClasses("a", "a")` is `"a a"`. */
  lemma DuplicatesKept(w: string)
    requires w != ""
    ensures CombineClasses([Str(w), Str(w)]) == w + " " + w
  {
    PairComposed(w, w);
  }

  /**
   * When every argument is a non-empty string, `combineClasses` is the plain
   * space-separated interpolation `${t0} ${t1} ...` of the arguments.
   */
  lemma CombineAllPresent(fs: seq<Fragment>, ts: seq<string>)
    requires |fs| == |ts|
    requires forall i :: 0 <= i < |ts| ==> ts[i] != "" && fs[i] == Str(ts[i])
    ensures CombineClasses(fs) == Join(ts)
  {
    SurvivorsAllPresent(fs, ts);
  }

  // ---------------------------------------------------------------------------
  // Spacing of the result
  // ---------------------------------------------------------------------------

  /** A class list with no leading, trailing or doubled space. */
  predicate WellSpaced(s: string) {
    && s != ""
    && s[0] != ' '
    && s[|s| - 1] != ' '
    && forall i :: 0 <= i < |s| - 1 ==> !(s[i] == ' ' && s[i + 1] == ' ')
  }

  /** Joining well-spaced class lists gives a well-spaced class list. */
  lemma {:induction false} JoinWellSpaced(ws: seq<string>)
    requires |ws| > 0
    requires forall w | w in ws :: WellSpaced(w)
    ensures WellSpaced(Join(ws))
  {
    if |ws| > 1 {
      assert ws[0] in ws;
      JoinWellSpaced(ws[1..]);
      var a, b := ws[0], Join(ws[1..]);
      var s := a + " " + b;
      assert s == Join(ws);
      forall i | 0 <= i < |s| - 1
        ensures !(s[i] == ' ' && s[i + 1] == ' ')
      {
        if i < |a| - 1 {
          assert s[i] == a[i];
        } else if i == |a| - 1 {
          assert s[i] == a[|a| - 1];
        } else if i == |a| {
          assert s[i + 1] == b[0];
        } else {
          assert s[i] == b[i - |a| - 1];
        }
      }
    }
  }

  /**
   * The result is empty or has no leading, trailing or doubled space provided
   * every truthy argument is itself so spaced; the code does not trim or
   * collapse.
   */
  lemma CombineWellSpaced(fs: seq<Fragment>)
    requires forall f | f in fs && Present(f) :: WellSpaced(f.s)
    ensures CombineClasses(fs) == "" || WellSpaced(CombineClasses(fs))
  {
    if !AnyPresent(fs) {
      return;
    }
    var ws := Survivors(fs);
    SurvivorsMembers(fs);
    forall w | w in ws
      ensures WellSpaced(w)
    {
      assert Str(w) in fs && Present(Str(w));
    }
    JoinWellSpaced(ws);
  }

  /** Whitespace inside an argument is copied verbatim, so spacing is not normalised in general. */
  lemma SpacingCopiedVerbatim()
    ensures CombineClasses([Str(" ")]) == " " && !WellSpaced(" ")
    ensures CombineClasses([Str("a "), Str("b")]) == "a  b"
  {
    assert Survivors([Str("a "), Str("b")]) == ["a ", "b"];
  }

  // ---------------------------------------------------------------------------
  // Reading the class names back
  // ---------------------------------------------------------------------------

  /** Index of the first space of `s`. */
  function FirstSpace(s: string): (i: nat)
    requires ' ' in s
    ensures i < |s| && s[i] == ' ' && ' ' !in s[..i]
  {
    if s[0] == ' ' then 0
    else
      var k := FirstSpace(s[1..]);
      assert s[..k + 1] == [s[0]] + s[1..][..k];
      k + 1
  }

  /** `s.split(' ')`: the pieces between single spaces, empty pieces included. */
  function Split(s: string): (r: seq<string>)
    ensures |r| > 0
    decreases |s|
  {
    if ' ' !in s then [s]
    else
      var i := FirstSpace(s);
      [s[..i]] + Split(s[i + 1..])
  }

  /** Splitting on spaces undoes joining space-free strings. */
  lemma {:induction false} SplitJoin(ws: seq<string>)
    requires |ws| > 0
    requires forall i :: 0 <= i < |ws| ==> ' ' !in ws[i]
    ensures Split(Join(ws)) == ws
  {
    if |ws| > 1 {
      var a, b := ws[0], Join(ws[1..]);
      var s := a + " " + b;
      assert s == Join(ws);
      assert s[|a|] == ' ';
      var i := FirstSpace(s);
      assert s[..i] == a;
      assert s[i + 1..] == b;
      SplitJoin(ws[1..]);
    }
  }

  /**
   * When the truthy arguments are single class names, splitting the result
   * on spaces gives back exactly those arguments, in order, duplicates kept.
   */
  lemma SplitCombine(fs: seq<Fragment>)
    requires AnyPresent(fs)
    requires forall f | f in fs && Present(f) :: ' ' !in f.s
    ensures Split(CombineClasses(fs)) == Survivors(fs)
  {
    var ws := Survivors(fs);
    SurvivorsMembers(fs);
    forall i | 0 <= i < |ws|
      ensures ' ' !in ws[i]
    {
      assert ws[i] in ws;
      assert Str(ws[i]) in fs && Present(Str(ws[i]));
    }
    SplitJoin(ws);
  }

  /** Argument order shows in the result when both arguments are distinct single class names. */
  lemma OrderMatters(x: string, y: string)
    requires x != "" && y != "" && x != y
    requires ' ' !in x && ' ' !in y
    ensures CombineClasses([Str(x), Str(y)]) != CombineClasses([Str(y), Str(x)])
  {
    assert Present([Str(x), Str(y)][0]) && Present([Str(y), Str(x)][0]);
    SplitCombine([Str(x), Str(y)]);
    SplitCombine([Str(y), Str(x)]);
    assert Survivors([Str(x), Str(y)]) == [x, y];
    assert Survivors([Str(y), Str(x)]) == [y, x];
  }

  /** With multi-class arguments the order can vanish: `("a", "a a")` and `("a a", "a")` agree. */
  lemma OrderCanVanish()
    ensures CombineClasses([Str("a"), Str("a a")]) == CombineClasses([Str("a a"), Str("a")])
  {
    assert Survivors([Str("a"), Str("a a")]) == ["a", "a a"];
    assert Survivors([Str("a a"), Str("a")]) == ["a a", "a"];
  }

  // ===========================================================================
  // The token registry `commonStyles` (styles.ts:2-67)
  // ===========================================================================

  /** `commonStyles.spacing`. */
  const Spacing: map<string, string> := map[
    "sm" := "p-2",
    "md" := "p-4",
    "lg" := "p-6"]

  /** `commonStyles.typography`. */
  const Typography: map<string, string> := map[
    "sm" := "text-sm",
    "md" := "text-base",
    "lg" := "text-lg",
    "xl" := "text-xl"]

  /** `commonStyles.colors`: one palette of `base`, `hover` and `focus` per colour. */
  const Colors: map<string, map<string, string>> := map[
    "primary" := map[
      "base" := "bg-blue-500 text-white",
      "hover" := "hover:bg-blue-600",
      "focus" := "focus:ring-blue-500"],
    "secondary" := map[
      "base" := "bg-gray-500 text-white",
      "hover" := "hover:bg-gray-600",
      "focus" := "focus:ring-gray-500"],
    "danger" := map[
      "base" := "bg-red-500 text-white",
      "hover" := "hover:bg-red-600",
      "focus" := "focus:ring-red-500"]]

  /** `commonStyles.states`. */
  const States: map<string, string> := map[
    "disabled" := "opacity-50 cursor-not-allowed",
    "loading" := "relative text-transparent after:absolute after:inset-0 after:flex after:items-center after:justify-center after:text-white after:content-[\"...\"]",
    "focus" := "focus:outline-none focus:ring-2 focus:ring-offset-2"]

  /** `commonStyles.transitions`. */
  const Transitions: map<string, string> := map[
    "default" := "transition-all",
    "colors" := "transition-colors",
    "transform" := "transition-transform"]

  /** `commonStyles.borderRadius`. */
  const BorderRadius: map<string, string> := map[
    "none" := "rounded-none",
    "sm" := "rounded-sm",
    "md" := "rounded",
    "lg" := "rounded-lg",
    "full" := "rounded-full"]

  /** `commonStyles.shadows`. */
  const Shadows: map<string, string> := map[
    "none" := "shadow-none",
    "sm" := "shadow-sm",
    "md" := "shadow",
    "lg" := "shadow-lg"]

  /** A nested object literal whose leaves are class-list strings. */
  datatype StyleTree = Leaf(classes: string) | Group(entries: map<string, StyleTree>)

  /** One level of the registry: each key of `m` holds its token. */
  function Leaves(m: map<string, string>): (t: StyleTree)
    ensures t.Group? && t.entries.Keys == m.Keys
  {
    Group(map k | k in m :: Leaf(m[k]))
  }

  /** The own keys of the `commonStyles` literal. */
  const CategoryNames: set<string> :=
    {"spacing", "typography", "colors", "states", "transitions", "borderRadius", "shadows"}

  /**
   * `commonStyles[name]` for the literal's own keys: the category of that
   * name, or `None` for any other name.
   */
  function Category(name: string): (r: Option<StyleTree>)
    ensures r.Some? <==> name in CategoryNames
    ensures r.Some? ==> r.value.Group?
  {
    if name == "spacing" then Some(Leaves(Spacing))
    else if name == "typography" then Some(Leaves(Typography))
    else if name == "colors" then Some(Group(map c | c in Colors :: Leaves(Colors[c])))
    else if name == "states" then Some(Leaves(States))
    else if name == "transitions" then Some(Leaves(Transitions))
    else if name == "borderRadius" then Some(Leaves(BorderRadius))
    else if name == "shadows" then Some(Leaves(Shadows))
    else None
  }

  /** Property access `tree.p0.p1...`; `None` where the path names no token. */
  function Lookup(t: StyleTree, path: seq<string>): (r: Option<string>)
    decreases |path|
  {
    if path == [] then
      if t.Leaf? then Some(t.classes) else None
    else if t.Group? && path[0] in t.entries then
      Lookup(t.entries[path[0]], path[1..])
    else
      None
  }

  /** Looking a key up one level down finds exactly that key's token. */
  lemma LookupLeaves(m: map<string, string>, k: string)
    ensures Lookup(Leaves(m), [k]) == if k in m then Some(m[k]) else None
  {
    assert [k][1..] == [];
  }

  /**
   * `commonStyles.p0.p1...`: the token at the end of a path of property
   * names, or `None` when the path names no token.
   */
  function GetToken(path: seq<string>): (r: Option<string>) {
    if path == [] then None
    else match Category(path[0])
      case None => None
      case Some(t) => Lookup(t, path[1..])
  }

  /** The spacing, typography and colour categories have exactly the keys written in the source. */
  lemma RegistryKeysFirst()
    ensures Spacing.Keys == {"sm", "md", "lg"}
    ensures Typography.Keys == {"sm", "md", "lg", "xl"}
    ensures Colors.Keys == {"primary", "secondary", "danger"}
    ensures forall c | c in Colors :: Colors[c].Keys == {"base", "hover", "focus"}
  {
  }

  /** The states, transitions, radius and shadow categories have exactly the keys written in the source. */
  lemma RegistryKeysRest()
    ensures States.Keys == {"disabled", "loading", "focus"}
    ensures Transitions.Keys == {"default", "colors", "transform"}
    ensures BorderRadius.Keys == {"none", "sm", "md", "lg", "full"}
    ensures Shadows.Keys == {"none", "sm", "md", "lg"}
  {
  }

  /** Two-level paths reach each flat category's tokens, and only those. */
  lemma RegistryLookupFlat(k: string)
    ensures GetToken(["spacing", k]) == if k in Spacing then Some(Spacing[k]) else None
    ensures GetToken(["typography", k]) == if k in Typography then Some(Typography[k]) else None
    ensures GetToken(["states", k]) == if k in States then Some(States[k]) else None
    ensures GetToken(["transitions", k]) == if k in Transitions then Some(Transitions[k]) else None
    ensures GetToken(["borderRadius", k]) == if k in BorderRadius then Some(BorderRadius[k]) else None
    ensures GetToken(["shadows", k]) == if k in Shadows then Some(Shadows[k]) else None
  {
    LookupLeaves(Spacing, k);
    LookupLeaves(Typography, k);
    LookupLeaves(States, k);
    LookupLeaves(Transitions, k);
    LookupLeaves(BorderRadius, k);
    LookupLeaves(Shadows, k);
  }

  /** Three-level paths reach the colour palettes' tokens, and only those. */
  lemma RegistryLookupColors(c: string, k: string)
    ensures GetToken(["colors", c, k])
      == if c in Colors && k in Colors[c] then Some(Colors[c][k]) else None
  {
    assert ["colors", c, k][1..] == [c, k] && [c, k][1..] == [k];
    if c in Colors {
      LookupLeaves(Colors[c], k);
    }
  }

  /** An unknown category or key, or a path that stops at a group or runs past a token, names no token. */
  lemma RegistryLookupMissing()
    ensures GetToken(["fonts", "sm"]) == None
    ensures GetToken(["colors", "nonexistent"]) == None
    ensures GetToken(["colors", "primary"]) == None
    ensures GetToken(["spacing", "sm", "x"]) == None
  {
  }

  /** Every token of the tree is a non-empty string. */
  predicate TokensNonEmpty(t: StyleTree)
    decreases t
  {
    match t
    case Leaf(c) => c != ""
    case Group(m) => forall k | k in m :: TokensNonEmpty(m[k])
  }

  /** What a lookup finds in a tree of non-empty tokens is non-empty. */
  lemma {:induction false} LookupNonEmpty(t: StyleTree, path: seq<string>)
    requires TokensNonEmpty(t)
    ensures Lookup(t, path).Some? ==> Lookup(t, path).value != ""
    decreases |path|
  {
    if path != [] && t.Group? && path[0] in t.entries {
      LookupNonEmpty(t.entries[path[0]], path[1..]);
    }
  }

  /** Every value of one level of the registry is a non-empty string. */
  predicate ValuesNonEmpty(m: map<string, string>) {
    forall k | k in m :: m[k] != ""
  }

  lemma LeavesNonEmpty(m: map<string, string>)
    requires ValuesNonEmpty(m)
    ensures TokensNonEmpty(Leaves(m))
  {
  }

  /** No token of `commonStyles` is empty, so every one of them is truthy. */
  lemma CommonStylesNonEmpty(name: string)
    ensures Category(name).Some? ==> TokensNonEmpty(Category(name).value)
  {
    if name == "spacing" {
      SpacingTypographyNonEmpty();
      LeavesNonEmpty(Spacing);
    } else if name == "typography" {
      SpacingTypographyNonEmpty();
      LeavesNonEmpty(Typography);
    } else if name == "colors" {
      ColorsNonEmpty();
    } else if name == "states" {
      StatesTransitionsNonEmpty();
      LeavesNonEmpty(States);
    } else if name == "transitions" {
      StatesTransitionsNonEmpty();
      LeavesNonEmpty(Transitions);
    } else if name == "borderRadius" {
      RadiiShadowsNonEmpty();
      LeavesNonEmpty(BorderRadius);
    } else if name == "shadows" {
      RadiiShadowsNonEmpty();
      LeavesNonEmpty(Shadows);
    }
  }

  // The literal's values, a few categories at a time (all at once is costly for the solver).

  lemma SpacingTypographyNonEmpty()
    ensures ValuesNonEmpty(Spacing) && ValuesNonEmpty(Typography)
  {
  }

  lemma StatesTransitionsNonEmpty()
    ensures ValuesNonEmpty(States) && ValuesNonEmpty(Transitions)
  {
  }

  lemma RadiiShadowsNonEmpty()
    ensures ValuesNonEmpty(BorderRadius) && ValuesNonEmpty(Shadows)
  {
  }

  /** No token of a colour palette is empty. */
  lemma ColorsNonEmpty()
    ensures TokensNonEmpty(Group(map c | c in Colors :: Leaves(Colors[c])))
  {
    assert forall c | c in Colors :: ValuesNonEmpty(Colors[c]);
    forall c | c in Colors
      ensures TokensNonEmpty(Leaves(Colors[c]))
    {
      LeavesNonEmpty(Colors[c]);
    }
  }

  /** A lookup in `commonStyles` yields a truthy token or nothing at all. */
  lemma RegistryLookupNonEmpty(path: seq<string>)
    ensures GetToken(path).Some? ==> GetToken(path).value != ""
  {
    if path != [] && Category(path[0]).Some? {
      CommonStylesNonEmpty(path[0]);
      LookupNonEmpty(Category(path[0]).value, path[1..]);
    }
  }

  // ===========================================================================
  // Component configurations derived from the registry (styles.ts:69-87)
  // ===========================================================================

  /** `StyleConfig` (styles.ts:95): a base class list and optional named parts. */
  datatype StyleConfig = StyleConfig(base: string, nested: Option<map<string, string>>)

  /** `buttonStyles`, its `base` built by template interpolation. */
  const ButtonStyles: StyleConfig := StyleConfig(
    Transitions["default"] + " " + BorderRadius["md"] + " font-medium "
      + States["focus"] + " " + Colors["primary"]["base"] + " "
      + Colors["primary"]["hover"] + " " + Colors["primary"]["focus"],
    None)

  /** `cardStyles`. */
  const CardStyles: StyleConfig := StyleConfig(
    BorderRadius["lg"] + " bg-white " + Shadows["sm"],
    Some(map[
      "header" := "mb-4",
      "h1" := Typography["xl"] + " font-bold text-gray-900",
      "h3" := Typography["sm"] + " text-gray-500 mt-1",
      "div" := "text-gray-700",
      "footer" := "mt-4 pt-4 border-t border-gray-200"]))

  /** `badgeStyles`. */
  const BadgeStyles: StyleConfig := StyleConfig("inline-flex items-center font-medium bg-gray-100 text-gray-800", None)

  /**
   * The shape of the `buttonStyles.base` template, `${a} ${b} font-medium ${d}
   * ${e} ${f} ${g}`, is the seven parts joined by single spaces.
   */
  lemma ButtonTemplateJoin(a: string, b: string, d: string, e: string, f: string, g: string)
    ensures a + " " + b + " font-medium " + d + " " + e + " " + f + " " + g
      == Join([a, b, "font-medium", d, e, f, g])
  {
    // Join, read left to right, follows the template's own shape.
    var t2 := [a] + [b];
    JoinSnoc([a], b);
    var t3 := t2 + ["font-medium"];
    JoinSnoc(t2, "font-medium");
    var t4 := t3 + [d];
    JoinSnoc(t3, d);
    var t5 := t4 + [e];
    JoinSnoc(t4, e);
    var t6 := t5 + [f];
    JoinSnoc(t5, f);
    JoinSnoc(t6, g);
    assert t6 + [g] == [a, b, "font-medium", d, e, f, g];
    var head := a + " " + b;
    assert head + " font-medium " == head + " " + "font-medium" + " ";
  }

  /** `buttonStyles.base` is `combineClasses` of exactly the tokens its template names, in order. */
  lemma ButtonBaseComposed()
    ensures ButtonStyles.base == CombineClasses([
      Str(Transitions["default"]), Str(BorderRadius["md"]), Str("font-medium"),
      Str(States["focus"]), Str(Colors["primary"]["base"]),
      Str(Colors["primary"]["hover"]), Str(Colors["primary"]["focus"])])
  {
    var a, b, d := Transitions["default"], BorderRadius["md"], States["focus"];
    var e, f, g := Colors["primary"]["base"], Colors["primary"]["hover"], Colors["primary"]["focus"];
    ButtonTemplateJoin(a, b, d, e, f, g);
    CombineAllPresent([Str(a), Str(b), Str("font-medium"), Str(d), Str(e), Str(f), Str(g)],
      [a, b, "font-medium", d, e, f, g]);
  }

  /** `cardStyles.base` is `combineClasses(borderRadius.lg, "bg-white", shadows.sm)`. */
  lemma CardBaseComposed()
    ensures CardStyles.base == CombineClasses([Str(BorderRadius["lg"]), Str("bg-white"), Str(Shadows["sm"])])
  {
    var ts := [BorderRadius["lg"], "bg-white", Shadows["sm"]];
    CombineAllPresent([Str(ts[0]), Str(ts[1]), Str(ts[2])], ts);
    assert ts == ts[..2] + [ts[2]];
    JoinSnoc(ts[..2], ts[2]);
    assert ts[..2] == ts[..1] + [ts[1]];
    JoinSnoc(ts[..1], ts[1]);
    assert ts[0] + " bg-white " == ts[0] + " " + "bg-white" + " ";
  }

  /** `cardStyles.nested.h1` is `combineClasses(typography.xl, "font-bold text-gray-900")`. */
  lemma CardH1Composed()
    ensures CardStyles.nested.Some? && "h1" in CardStyles.nested.value
    ensures CardStyles.nested.value["h1"] == CombineClasses([Str(Typography["xl"]), Str("font-bold text-gray-900")])
  {
    var xl := Typography["xl"];
    PairComposed(xl, "font-bold text-gray-900");
    assert xl + " font-bold text-gray-900" == xl + " " + "font-bold text-gray-900";
  }

  /** `cardStyles.nested.h3` is `combineClasses(typography.sm, "text-gray-500 mt-1")`. */
  lemma CardH3Composed()
    ensures CardStyles.nested.Some? && "h3" in CardStyles.nested.value
    ensures CardStyles.nested.value["h3"] == CombineClasses([Str(Typography["sm"]), Str("text-gray-500 mt-1")])
  {
    var sm := Typography["sm"];
    PairComposed(sm, "text-gray-500 mt-1");
    assert sm + " text-gray-500 mt-1" == sm + " " + "text-gray-500 mt-1";
  }

  /**
   * `buttonStyles` and `badgeStyles` have only a `base`; `cardStyles` has a
   * `base` and the five named parts of a card.
   */
  lemma ConfigShapes()
    ensures ButtonStyles.nested.None? && BadgeStyles.nested.None?
    ensures CardStyles.nested.Some?
    ensures CardStyles.nested.value.Keys == {"header", "h1", "h3", "div", "footer"}
    ensures CardStyles.nested.value["header"] == "mb-4"
    ensures CardStyles.nested.value["div"] == "text-gray-700"
    ensures CardStyles.nested.value["footer"] == "mt-4 pt-4 border-t border-gray-200"
    ensures BadgeStyles.base == "inline-flex items-center font-medium bg-gray-100 text-gray-800"
  {
  }

  /** Every derived class list is truthy, so passing it to `combineClasses` never drops it. */
  lemma ConfigsNonEmpty()
    ensures ButtonStyles.base != "" && CardStyles.base != "" && BadgeStyles.base != ""
    ensures CardStyles.nested.Some?
    ensures forall k | k in CardStyles.nested.value :: CardStyles.nested.value[k] != ""
  {
  }
}
