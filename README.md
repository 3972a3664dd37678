# Style tokens and `combineClasses`, modelled in Dafny

This project models the one piece of logic in the tailor-docs documentation site:
`docs/examples/shared/styles.ts`. That file holds three things.

- **`commonStyles`** is a registry of Tailwind class-list strings. It is grouped by category (`spacing`,
  `typography`, `colors`, `states`, `transitions`, `borderRadius`, `shadows`) and then by key. `colors` has one more
  level: a palette of `base`, `hover` and `focus` per colour.
- **`buttonStyles`, `cardStyles` and `badgeStyles`** are component configurations. Some of their strings are built
  by template interpolation (`${a} ${b} font-medium ...`) over registry tokens.
- **`combineClasses(...classes)`** takes fragments typed `string | undefined | null | false`. It keeps the truthy ones
  with `filter(Boolean)` and joins them with `' '`.

Everything is in `styles.dfy`, in module `Styles`. The file is pure, so the model uses datatypes, functions and lemmas.

- A fragment is `Fragment = Str(s) | Undefined | Null | False`. `Present` is JavaScript truthiness on that type: a
  string is truthy exactly when it is non-empty.
- `CombineClasses` is `Join(Survivors(fs))`. `Survivors` is `filter(Boolean)`. `Join` is `Array.prototype.join(' ')`.
- Each registry category is a constant map: `Spacing`, `Typography`, `Colors`, `States`, `Transitions`,
  `BorderRadius` and `Shadows` copy styles.ts:4-66 entry for entry. `Category(name)` reads one of the literal's own
  keys, so it is `commonStyles[name]` for those seven names. `GetToken(path)` follows a property path such as
  `["colors", "primary", "hover"]` through the literal's own keys. It returns `None` where the path names no token.
- `StyleConfig` is the record of styles.ts:95. The constants `ButtonStyles`, `CardStyles` and `BadgeStyles` are
  styles.ts:70-87, with each template string written out as the concatenation the template produces.
- `Split` models `String.prototype.split(' ')`. It is the inverse used to state that joining loses nothing.

## Model

| member | source | states |
|---|---|---|
| `Styles.Present` | docs/examples/shared/styles.ts:91 | (definition, no contract) `Boolean(f)` on the declared argument type: `undefined`, `null`, `false` and `''` are falsy, every other string is truthy |
| `Styles.Survivors` | docs/examples/shared/styles.ts:91 | `filter(Boolean)` keeps no empty string, never grows the list, and leaves something exactly when some argument is truthy |
| `Styles.Join` | docs/examples/shared/styles.ts:91 | `join(' ')` of no strings is `""`; otherwise its length is the sum of the lengths plus one separator between each pair of neighbours |
| `Styles.CombineClasses` | docs/examples/shared/styles.ts:90-92 | the result is the empty string exactly when no argument is truthy (no arguments, or only `undefined`, `null`, `false`, `''`) |
| `Styles.CombineNoArguments` | docs/examples/shared/styles.ts:90-91 | `combineClasses()` is `""` |
| `Styles.SurvivorsMembers` | docs/examples/shared/styles.ts:91 | a string is in the filtered list exactly when it is non-empty and was passed as an argument |
| `Styles.SurvivorsAppend` | docs/examples/shared/styles.ts:91 | filtering distributes over concatenation of argument lists, so relative order is kept |
| `Styles.SurvivorsKeepMultiplicity` | docs/examples/shared/styles.ts:91 | each truthy string survives as many times as it was passed: nothing is deduplicated |
| `Styles.SurvivorsAllPresent` | docs/examples/shared/styles.ts:91 | when every argument is a non-empty string, all of them survive, in order |
| `Styles.JoinAppend` | docs/examples/shared/styles.ts:91 | joining two non-empty lists is the two joins with exactly one space between |
| `Styles.JoinSnoc` | docs/examples/shared/styles.ts:91 | appending a string to a non-empty list adds one space and then that string |
| `Styles.CombineAppend` | docs/examples/shared/styles.ts:91 | concatenation law: with a truthy argument in both halves the result is left result + `" "` + right result; a half with none contributes nothing |
| `Styles.AbsentOmitted` | docs/examples/shared/styles.ts:91 | a falsy argument anywhere contributes neither text nor a separator |
| `Styles.SinglePresentVerbatim` | docs/examples/shared/styles.ts:91 | a single truthy argument among falsy ones is returned verbatim |
| `Styles.PairComposed` | docs/examples/shared/styles.ts:91 | two truthy arguments give `a + " " + b` |
| `Styles.DuplicatesKept` | docs/examples/shared/styles.ts:91 | `combineClasses(w, w)` is `w + " " + w` |
| `Styles.CombineAllPresent` | docs/examples/shared/styles.ts:90-92 | when every argument is a non-empty string, `combineClasses` equals plain space-separated interpolation of the arguments |
| `Styles.JoinWellSpaced` | docs/examples/shared/styles.ts:91 | joining strings that have no leading, trailing or doubled space gives such a string |
| `Styles.CombineWellSpaced` | docs/examples/shared/styles.ts:90-92 | for every argument list, the result is `""` or has no leading, trailing or doubled space, provided every truthy argument has none |
| `Styles.SpacingCopiedVerbatim` | docs/examples/shared/styles.ts:91 | whitespace inside an argument is copied as is: `combineClasses(" ")` is `" "` and `combineClasses("a ", "b")` is `"a  b"` |
| `Styles.SplitJoin` | docs/examples/shared/styles.ts:91 | splitting on `' '` undoes `join(' ')` of a non-empty list of space-free strings |
| `Styles.SplitCombine` | docs/examples/shared/styles.ts:90-92 | when the truthy arguments are single class names, splitting the result gives back exactly those arguments in order, duplicates included |
| `Styles.OrderMatters` | docs/examples/shared/styles.ts:91 | for distinct single class names `x` and `y`, `combineClasses(x, y)` differs from `combineClasses(y, x)` |
| `Styles.OrderCanVanish` | docs/examples/shared/styles.ts:91 | with multi-class arguments the order can be invisible: `("a", "a a")` and `("a a", "a")` give the same string |
| `Styles.RegistryKeysFirst` | docs/examples/shared/styles.ts:4-35 | the `Spacing`, `Typography` and `Colors` constants have exactly the keys of the literal, and every palette has exactly `base`, `hover` and `focus` |
| `Styles.RegistryKeysRest` | docs/examples/shared/styles.ts:38-66 | the `States`, `Transitions`, `BorderRadius` and `Shadows` constants have exactly the keys of the literal |
| `Styles.Category` | docs/examples/shared/styles.ts:2-67 | `commonStyles[name]` finds a category exactly for the literal's seven own keys, and every category is an object, not a token |
| `Styles.Lookup` | docs/examples/shared/styles.ts:2-67 | (definition, no contract) chained property reads down a path: a token when the path ends exactly at a string, `None` where a key is missing, the path stops at an object, or it runs past a string |
| `Styles.GetToken` | docs/examples/shared/styles.ts:2-67 | (definition, no contract) `commonStyles.p0.p1...`: the category named by the first key, then `Lookup` for the rest; `None` for the empty path |
| `Styles.Leaves` | docs/examples/shared/styles.ts:2-67 | one registry level built from a category map has exactly that map's keys |
| `Styles.LookupLeaves` | docs/examples/shared/styles.ts:2-67 | looking up a key one level down finds that key's token, and nothing for an absent key |
| `Styles.RegistryLookupFlat` | docs/examples/shared/styles.ts:4-66 | `commonStyles.<category>.<key>` for spacing, typography, states, transitions, borderRadius and shadows finds exactly that category's entry, and nothing for an unknown key |
| `Styles.RegistryLookupColors` | docs/examples/shared/styles.ts:19-35 | `commonStyles.colors.<colour>.<part>` finds exactly that palette entry, and nothing otherwise |
| `Styles.RegistryLookupMissing` | docs/examples/shared/styles.ts:2-67 | an unknown category, an unknown key, a path that stops at a palette and a path that runs past a token all name no token |
| `Styles.LookupNonEmpty` | docs/examples/shared/styles.ts:2-67 | in a tree whose tokens are all non-empty, every lookup that finds something finds a non-empty string |
| `Styles.LeavesNonEmpty` | docs/examples/shared/styles.ts:2-67 | a category map with no empty value gives a registry level with no empty token |
| `Styles.SpacingTypographyNonEmpty` | docs/examples/shared/styles.ts:4-16 | every spacing and typography token is non-empty |
| `Styles.StatesTransitionsNonEmpty` | docs/examples/shared/styles.ts:38-49 | every states and transitions token is non-empty |
| `Styles.RadiiShadowsNonEmpty` | docs/examples/shared/styles.ts:52-66 | every border-radius and shadow token is non-empty |
| `Styles.ColorsNonEmpty` | docs/examples/shared/styles.ts:19-35 | every token of every colour palette is non-empty |
| `Styles.CommonStylesNonEmpty` | docs/examples/shared/styles.ts:2-67 | every token of every category of `commonStyles` is non-empty, so `combineClasses` never drops one |
| `Styles.RegistryLookupNonEmpty` | docs/examples/shared/styles.ts:2-67 | any token found in `commonStyles` is a non-empty (truthy) string |
| `Styles.ButtonTemplateJoin` | docs/examples/shared/styles.ts:71 | the `${a} ${b} font-medium ${d} ${e} ${f} ${g}` template equals the seven parts joined by single spaces |
| `Styles.ButtonBaseComposed` | docs/examples/shared/styles.ts:70-72 | `buttonStyles.base` equals `combineClasses(transitions.default, borderRadius.md, "font-medium", states.focus, colors.primary.base, colors.primary.hover, colors.primary.focus)` |
| `Styles.CardBaseComposed` | docs/examples/shared/styles.ts:75 | `cardStyles.base` equals `combineClasses(borderRadius.lg, "bg-white", shadows.sm)` |
| `Styles.CardH1Composed` | docs/examples/shared/styles.ts:78 | `cardStyles.nested.h1` equals `combineClasses(typography.xl, "font-bold text-gray-900")` |
| `Styles.CardH3Composed` | docs/examples/shared/styles.ts:79 | `cardStyles.nested.h3` equals `combineClasses(typography.sm, "text-gray-500 mt-1")` |
| `Styles.ConfigShapes` | docs/examples/shared/styles.ts:70-87 | `ButtonStyles` and `BadgeStyles` (records of the `StyleConfig` shape at styles.ts:95) have no `nested`; `CardStyles.nested` has exactly `header`, `h1`, `h3`, `div` and `footer`, with the literal strings of lines 77, 80 and 81, and `BadgeStyles.base` is the literal of line 86 |
| `Styles.ConfigsNonEmpty` | docs/examples/shared/styles.ts:70-87 | every `base` and every `nested` entry of the three component configurations is a non-empty string |

## Left out

- `CombineWellSpaced`: "no leading, trailing or doubled space" is proved only when every truthy argument is itself well spaced. The code does not trim or collapse whitespace, and `SpacingCopiedVerbatim` shows that the property does not hold for every input.
- `OrderMatters`: "swapping two distinct arguments changes the result" is proved only for single class names. `OrderCanVanish` shows it fails for multi-class arguments.
- The registry's tokens are proved non-empty. It is not proved that their inner spacing is one space between class names, because that would mean checking the characters of long string literals.
- Neither "no doubled, leading or trailing space" nor "swapping two distinct arguments changes the result" holds for the code in general. The model proves the conditional forms (`CombineWellSpaced`, `OrderMatters`) and the counterexamples (`SpacingCopiedVerbatim`, `OrderCanVanish`).
- `GetToken`: only the literal's own keys are modelled. Inherited `Object.prototype` members and indexing into a token string are not: `commonStyles.toString`, `commonStyles.constructor.name` (`"Object"`), `commonStyles.spacing.sm[0]` (`"p"`) and `commonStyles.spacing.sm.length` (`3`) are all `None` in the model.
- `GetToken`: for a key that is neither an own key nor inherited, JavaScript gives `undefined`, and a further read on `undefined` throws a `TypeError`. The model does not tell these apart: both are `None`, the "not found" outcome.
- Arguments outside the declared parameter type (numbers, objects) are not modelled. The signature at styles.ts:90 excludes them.
- `StyleConfig` (styles.ts:95) is a record type here. TypeScript's structural typing, and the fact that `buttonStyles` is not declared with that type, are not modelled.
- The commented-out usage example (styles.ts:97-114) is not code. It refers to `buttonStyles.variants` and `buttonStyles.sizes`, which do not exist, and it calls an external `craft` function.
- Repeated lookups returning the same string needs no lemma: every function here is deterministic.
- docusaurus.config.ts, sidebars.ts, src/pages/index.tsx and src/components/HomepageFeatures/index.tsx are not part of this model. They are site configuration and React presentation over framework components, with no logic of their own. The `new Date()` call in the site configuration is a clock read.
- Tailwind semantics are not modelled. Class names are opaque strings: nothing is parsed, validated or deduplicated.
