/** The form the page collects and the prompts built from it: the values
    `str.format` substitutes into the system and user templates, and the
    target length `target_chars`. */
module Prompts {
  import opened PyText

  datatype ContentType = Listing | ProductSheet {
    /** The option text of the content-type select box. */
    function Label(): string {
      match this
      case Listing => "Listing"
      case ProductSheet => "Scheda prodotto"
    }
  }

  datatype Tone = Professional | Conversational | Authoritative | Persuasive | Neutral {
    function Label(): string {
      match this
      case Professional => "professionale"
      case Conversational => "conversazionale"
      case Authoritative => "autorevole"
      case Persuasive => "persuasivo"
      case Neutral => "neutro"
    }
  }

  datatype Language = Italian | English {
    function Label(): string {
      match this
      case Italian => "Italiano"
      case English => "English"
    }
  }

  /** The values the page reads from its widgets before the run starts. */
  datatype Form = Form(
    keyword: string,
    url: string,
    contentType: ContentType,
    tone: Tone,
    brandVoice: string,
    extraGuidelines: string,
    language: Language,
    introText: string,
    bullets: string,
    targetMin: int,
    targetMax: int)

  // ---------------------------------------------------------------------
  // target_chars = int((target_min + target_max) / 2)
  // ---------------------------------------------------------------------

  /** `int(n / 2)`: true division followed by truncation toward zero. */
  function HalfTowardZero(n: int): (h: int)
    ensures n >= 0 ==> 0 <= h && n - 1 <= 2 * h <= n
    ensures n < 0 ==> h <= 0 && n <= 2 * h <= n + 1
  {
    if n >= 0 then n / 2 else -((-n) / 2)
  }

  function TargetChars(form: Form): int {
    HalfTowardZero(form.targetMin + form.targetMax)
  }

  /** The target lies inside a well-ordered window, and for a non-negative
      window it is the floor of the midpoint. */
  lemma TargetCharsInWindow(form: Form)
    requires form.targetMin <= form.targetMax
    ensures form.targetMin <= TargetChars(form) <= form.targetMax
    ensures form.targetMin + form.targetMax >= 0 ==>
              TargetChars(form) == (form.targetMin + form.targetMax) / 2
  {
  }

  /** Truncation differs from flooring only for an odd negative sum. */
  lemma TargetCharsTruncates()
    ensures HalfTowardZero(-3) == -1 && -3 / 2 == -2
  {
  }

  // ---------------------------------------------------------------------
  // Templates and str.format
  // ---------------------------------------------------------------------

  /** The replacement fields the templates of the page use. */
  datatype Field = MinC | MaxC | Target | CType | Keyword | Url | Domain | ToneField
                 | BrandVoice | ExtraGuidelines | LanguageField | IntroText | Bullets

  /** A template as `str.format` reads it: literal text and `{name}` fields. */
  datatype Segment = Lit(text: string) | Hole(field: Field)

  type Template = seq<Segment>

  /** Every field of `t` is among `names`; `format` raises otherwise. */
  predicate Closed(t: Template, names: set<Field>) {
    forall i :: 0 <= i < |t| ==> t[i].Hole? ==> t[i].field in names
  }

  /** Python's `s or fallback` on strings. */
  function OrElse(s: string, fallback: string): string {
    if s != "" then s else fallback
  }

  /** The keyword arguments the page passes to `format`. The system template
      is given the window, the target and the content type, the corrective
      f-string the window and the target, the user template all of them:
      each name has the same value wherever it is given. */
  datatype Bindings = Bindings(form: Form, domain: string) {
    function Value(f: Field): string {
      match f
      case MinC => IntToString(form.targetMin)
      case MaxC => IntToString(form.targetMax)
      case Target => IntToString(TargetChars(form))
      case CType => form.contentType.Label()
      case Keyword => form.keyword
      case Url => OrElse(form.url, "(non fornito)")
      case Domain => OrElse(domain, "(non disponibile)")
      case ToneField => form.tone.Label()
      case BrandVoice => OrElse(form.brandVoice, "(non specificata)")
      case ExtraGuidelines => OrElse(form.extraGuidelines, "(nessuna)")
      case LanguageField => form.language.Label()
      case IntroText => OrElse(form.introText, "")
      case Bullets => OrElse(form.bullets, "")
    }
  }

  const SystemFields: set<Field> := {MinC, MaxC, Target, CType}
  const FixFields: set<Field> := {MinC, MaxC, Target}

  /** `t.format(...)` with the page's bindings: literal text kept, each field
      replaced by its value, which is inserted verbatim and not parsed
      again. */
  function Render(t: Template, b: Bindings): string {
    if t == [] then ""
    else
      var head := match t[0] case Lit(text) => text case Hole(f) => b.Value(f);
      head + Render(t[1..], b)
  }

  /** A template rendered with two bindings that agree on the fields it
      uses gives the same text. */
  lemma {:induction false} RenderOnlyUsesItsFields(t: Template, b1: Bindings, b2: Bindings, names: set<Field>)
    requires Closed(t, names)
    requires forall f :: f in names ==> b1.Value(f) == b2.Value(f)
    ensures Render(t, b1) == Render(t, b2)
    decreases |t|
  {
    if t != [] {
      assert Closed(t[1..], names) by {
        forall i | 0 <= i < |t[1..]| && t[1..][i].Hole? ensures t[1..][i].field in names {
          assert t[1..][i] == t[i + 1];
        }
      }
      if t[0].Hole? {
        assert t[0].field in names;
      }
      RenderOnlyUsesItsFields(t[1..], b1, b2, names);
    }
  }

  /** The system prompt (and the corrective instruction) depend on the
      window, the target and the content type only: not on the keyword, the
      URL, the domain or any other user text. */
  lemma SystemPromptDependsOnWindowOnly(t: Template, b1: Bindings, b2: Bindings)
    requires Closed(t, SystemFields)
    requires b1.form.targetMin == b2.form.targetMin && b1.form.targetMax == b2.form.targetMax
    requires b1.form.contentType == b2.form.contentType
    ensures Render(t, b1) == Render(t, b2)
  {
    RenderOnlyUsesItsFields(t, b1, b2, SystemFields);
  }

  /** Every field of the user prompt is filled; the four optional
      descriptive fields are never left blank but fall back to their
      placeholder, and a given value is used as it is. */
  lemma PlaceholdersFillGaps(b: Bindings)
    ensures b.Value(Keyword) == b.form.keyword
    ensures b.Value(Url) != "" && (b.form.url != "" ==> b.Value(Url) == b.form.url)
    ensures b.Value(Domain) != "" && (b.domain != "" ==> b.Value(Domain) == b.domain)
    ensures b.Value(BrandVoice) != "" && (b.form.brandVoice != "" ==> b.Value(BrandVoice) == b.form.brandVoice)
    ensures b.Value(ExtraGuidelines) != ""
    ensures b.form.extraGuidelines != "" ==> b.Value(ExtraGuidelines) == b.form.extraGuidelines
    ensures b.Value(IntroText) == b.form.introText && b.Value(Bullets) == b.form.bullets
  {
  }

  /** The numbers rendered into the prompts read back as the window and the
      target. */
  lemma WindowRendersFaithfully(b: Bindings)
    ensures ParseInt(b.Value(MinC)) == Some(b.form.targetMin)
    ensures ParseInt(b.Value(MaxC)) == Some(b.form.targetMax)
    ensures ParseInt(b.Value(Target)) == Some(TargetChars(b.form))
  {
    IntToStringRoundTrip(b.form.targetMin);
    IntToStringRoundTrip(b.form.targetMax);
    IntToStringRoundTrip(TargetChars(b.form));
  }
}
