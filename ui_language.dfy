/**
 * The supported-languages modal: a static table of language categories, the
 * colour lookup with its cyan fallback, the rule that a closed modal renders
 * nothing, and the click rule: the backdrop and the header's close button
 * close it, any other click inside the dialog does not.
 */
module Languages {

  datatype Language = Language(name: string, extensions: seq<string>)

  datatype Category = Category(category: string, color: string, languages: seq<Language>)

  const LanguageCategories: seq<Category> := [
    Category("Programming Languages", "cyan", [
      Language("Python", [".py"]),
      Language("JavaScript", [".js"]),
      Language("TypeScript", [".ts", ".tsx"]),
      Language("Java", [".java"]),
      Language("C/C++", [".c", ".cpp"]),
      Language("Go", [".go"]),
      Language("Rust", [".rs"]),
      Language("PHP", [".php"]),
      Language("Ruby", [".rb"]),
      Language("Swift", [".swift"]),
      Language("Kotlin", [".kt"]),
      Language("Dart", [".dart"])
    ]),
    Category("Web Technologies", "purple", [
      Language("HTML", [".html"]),
      Language("CSS/SCSS", [".css", ".scss"]),
      Language("JSX/TSX", [".jsx", ".tsx"])
    ]),
    Category("Data & Configuration", "pink", [
      Language("JSON", [".json"]),
      Language("YAML", [".yaml", ".yml"]),
      Language("XML", [".xml"]),
      Language("Markdown", [".md"]),
      Language("Text Files", [".txt"])
    ]),
    Category("Scripts & Shell", "green", [
      Language("Bash/Shell", [".sh", ".bash"]),
      Language("SQL", [".sql"])
    ])
  ]

  /** The keys of the colour dictionary. */
  const ColorKeys: set<string> := {"cyan", "purple", "pink", "green"}

  /** The colour dictionary. */
  const Colors: map<string, string> := map[
    "cyan" := "from-cyan-500 to-blue-500",
    "purple" := "from-purple-500 to-pink-500",
    "pink" := "from-pink-500 to-rose-500",
    "green" := "from-green-500 to-emerald-500"
  ]

  /** `getColorClasses`: the dictionary entry, or the cyan entry when the key
      has none (every entry is a non-empty, hence truthy, string). */
  function ColorClasses(color: string): (r: string)
    ensures color in ColorKeys ==> r == Colors[color]
    ensures color !in ColorKeys ==> r == Colors["cyan"]
    ensures r != ""
  {
    if color in Colors && Colors[color] != "" then Colors[color] else Colors["cyan"]
  }

  /** The fallback makes the lookup total, and distinct known keys get
      distinct gradients. */
  lemma ColorClassesDistinct(a: string, b: string)
    requires a in ColorKeys && b in ColorKeys && a != b
    ensures ColorClasses(a) != ColorClasses(b)
  {
    assert Colors["cyan"][5] == 'c' && Colors["purple"][5] == 'p';
    assert Colors["pink"][5] == 'p' && Colors["pink"][6] == 'i' && Colors["purple"][6] == 'u';
    assert Colors["green"][5] == 'g';
  }

  /** Every category's colour is one of the dictionary's keys, so the table
      never relies on the fallback. */
  lemma CategoryColorsKnown()
    ensures forall i :: 0 <= i < |LanguageCategories| ==> LanguageCategories[i].color in ColorKeys
  {
  }

  /** Whether `ext` is listed for the `j`-th language of the `i`-th category. */
  predicate Lists(i: int, j: int, ext: string)
  {
    0 <= i < |LanguageCategories| && 0 <= j < |LanguageCategories[i].languages|
    && ext in LanguageCategories[i].languages[j].extensions
  }

  /** Every listed extension starts with a dot. */
  lemma ExtensionsStartWithDot(i: int, j: int, k: int)
    requires 0 <= i < |LanguageCategories| && 0 <= j < |LanguageCategories[i].languages|
    requires 0 <= k < |LanguageCategories[i].languages[j].extensions|
    ensures |LanguageCategories[i].languages[j].extensions[k]| >= 2
    ensures LanguageCategories[i].languages[j].extensions[k][0] == '.'
  {
  }

  /** Extensions are not a partition: `.tsx` is listed both for TypeScript
      and for JSX/TSX, in different categories. */
  lemma TsxListedTwice()
    ensures Lists(0, 2, ".tsx") && LanguageCategories[0].languages[2].name == "TypeScript"
    ensures Lists(1, 2, ".tsx") && LanguageCategories[1].languages[2].name == "JSX/TSX"
  {
    assert LanguageCategories[0].languages[2].extensions[1] == ".tsx";
    assert LanguageCategories[1].languages[2].extensions[1] == ".tsx";
  }

  /** What the component renders. */
  datatype View = Nothing | Modal(categories: seq<Category>)

  /** `if (!isOpen) return null`: a closed modal renders nothing, an open one
      renders the whole table. */
  function Render(isOpen: bool): (v: View)
    ensures v == Nothing <==> !isOpen
    ensures isOpen ==> v == Modal(LanguageCategories)
  {
    if !isOpen then Nothing else Modal(LanguageCategories)
  }

  /** Where a click lands: on the backdrop, on the close button in the
      dialog's header, or elsewhere inside the dialog, whose handler stops
      propagation. */
  datatype ClickTarget = Backdrop | CloseButton | Dialog

  /** The backdrop and the close button both call `onClose`; a click anywhere
      else in the dialog stops at the dialog and closes nothing.  The close
      button's click stops there too, so it never reaches the backdrop. */
  function ClickCloses(target: ClickTarget): (close: bool)
    ensures close <==> target == Backdrop || target == CloseButton
  {
    match target
    case Backdrop => true
    case CloseButton => true
    case Dialog => false
  }
}
