/**
 * `{field}` templates: filling them from a credential, deriving the credential form from them, and routing
 * operation arguments into a path, a query or a body.
 *
 * `Slots` is the one reading of the pattern (an opening brace, one or more word characters, a closing
 * brace; leftmost and non-overlapping) on which the three users of it must agree.
 */
module Templates {
  import opened Common

  type Record = map<string, string>

  // ---------------------------------------------------------------- the scanner

  datatype Piece = Plain(c: char) | Slot(key: string)

  predicate IsWord(c: char) {
    'a' <= c <= 'z' || 'A' <= c <= 'Z' || '0' <= c <= '9' || c == '_'
  }

  predicate Word(k: string) {
    k != "" && forall i :: 0 <= i < |k| ==> IsWord(k[i])
  }

  /** Length of the longest run of word characters at the start. */
  function WordLength(s: string): (n: nat)
    ensures n <= |s|
    ensures forall i :: 0 <= i < n ==> IsWord(s[i])
    ensures n < |s| ==> !IsWord(s[n])
  {
    if s == "" || !IsWord(s[0]) then 0 else 1 + WordLength(s[1..])
  }

  /** The key of the placeholder that starts here, if one does. */
  function SlotAt(s: string): (r: Option<string>)
    ensures r.Some? ==> Word(r.value) && |r.value| + 2 <= |s| && s[..|r.value| + 2] == "{" + r.value + "}"
  {
    if s == "" || s[0] != '{' then None
    else
      var n := WordLength(s[1..]);
      if n > 0 && n + 1 < |s| && s[n + 1] == '}' then Some(s[1..n + 1]) else None
  }

  lemma {:induction false} WordLengthOf(word: string, rest: string)
    requires (forall i :: 0 <= i < |word| ==> IsWord(word[i])) && (rest != "" ==> !IsWord(rest[0]))
    ensures WordLength(word + rest) == |word|
  {
    if word == "" {
      assert word + rest == rest;
    } else {
      assert (word + rest)[1..] == word[1..] + rest;
      WordLengthOf(word[1..], rest);
    }
  }

  /** Every braced word is recognised as a placeholder, whatever follows it. */
  lemma BracedWordIsASlot(word: string, rest: string)
    requires Word(word)
    ensures SlotAt("{" + word + "}" + rest) == Some(word)
  {
    var s := "{" + word + "}" + rest;
    assert s[1..] == word + ("}" + rest);
    WordLengthOf(word, "}" + rest);
    assert s[1..|word| + 1] == word;
  }

  function Pieces(s: string): seq<Piece>
    decreases |s|
  {
    if s == "" then []
    else match SlotAt(s)
         case Some(key) => [Slot(key)] + Pieces(s[|key| + 2..])
         case None => [Plain(s[0])] + Pieces(s[1..])
  }

  function PieceSource(piece: Piece): string {
    match piece
    case Plain(c) => [c]
    case Slot(key) => "{" + key + "}"
  }

  function Source(pieces: seq<Piece>): string {
    if pieces == [] then ""
    else PieceSource(pieces[0]) + Source(pieces[1..])
  }

  /** The placeholders of a template, in order. */
  function Slots(s: string): seq<string>
    decreases |s|
  {
    if s == "" then []
    else match SlotAt(s)
         case Some(key) => [key] + Slots(s[|key| + 2..])
         case None => Slots(s[1..])
  }

  /** The placeholders of a template as a set. */
  function SlotSet(s: string): set<string> {
    set k | k in Slots(s)
  }

  /** What is left of a non-empty template once its first piece is scanned. */
  function Rest(s: string): string
    requires s != ""
  {
    s[if SlotAt(s).Some? then |SlotAt(s).value| + 2 else 1..]
  }

  /** The first piece of a non-empty template. */
  function First(s: string): Piece
    requires s != ""
  {
    if SlotAt(s).Some? then Slot(SlotAt(s).value) else Plain(s[0])
  }

  lemma ScanStep(s: string)
    requires s != ""
    ensures Pieces(s) == [First(s)] + Pieces(Rest(s)) && Pieces(s)[1..] == Pieces(Rest(s))
    ensures Slots(s) == (if First(s).Slot? then [First(s).key] else []) + Slots(Rest(s))
    ensures SlotSet(s) == (if First(s).Slot? then {First(s).key} else {}) + SlotSet(Rest(s))
    ensures |Rest(s)| < |s| && s == PieceSource(First(s)) + Rest(s)
  {
    var step := |s| - |Rest(s)|;
    assert s == s[..step] + s[step..];
  }

  /** Scanning loses nothing: writing the pieces back gives the template. */
  lemma {:induction false} ScanIsLossless(s: string)
    ensures Source(Pieces(s)) == s
    decreases |s|
  {
    if s != "" {
      ScanStep(s);
      ScanIsLossless(Rest(s));
    }
  }

  predicate OccursAt(s: string, i: nat, k: string) {
    i + |k| + 2 <= |s| && s[i] == '{' && s[i + 1..i + 1 + |k|] == k && s[i + 1 + |k|] == '}'
  }

  /** The text holds `{k}` after `a` and before `b`. */
  predicate OccursBetween(s: string, a: string, k: string, b: string) {
    s == a + "{" + k + "}" + b
  }

  lemma OccursAtIsBetween(s: string, i: nat, k: string)
    requires OccursAt(s, i, k)
    ensures OccursBetween(s, s[..i], k, s[i + |k| + 2..])
  {
  }

  lemma OccursBetweenIsAt(s: string, a: string, k: string, b: string)
    requires OccursBetween(s, a, k, b)
    ensures OccursAt(s, |a|, k)
  {
  }

  lemma SlotHasOneBrace(s: string)
    requires SlotAt(s).Some?
    ensures forall j :: 0 < j < |SlotAt(s).value| + 2 ==> s[j] != '{'
  {
    var key := SlotAt(s).value;
    var braced := "{" + key + "}";
    forall j | 0 < j < |braced| ensures s[j] != '{' {
      assert s[j] == s[..|braced|][j] == braced[j];
    }
  }

  /** No placeholder reaches across an opening brace. */
  lemma PieceEndsBefore(s: string, i: nat)
    requires 0 < i < |s| && s[i] == '{'
    ensures |s| - |Rest(s)| <= i
  {
    if SlotAt(s).Some? {
      SlotHasOneBrace(s);
    }
  }

  lemma HeadOccurrence(s: string, k: string)
    requires Word(k) && OccursAt(s, 0, k)
    ensures SlotAt(s) == Some(k)
  {
    var n := WordLength(s[1..]);
    assert s[1..][|k|] == '}';
    assert forall j :: 0 <= j < |k| ==> s[1..][j] == s[1..1 + |k|][j];
  }

  lemma SlotOccursHere(s: string, k: string)
    requires SlotAt(s) == Some(k)
    ensures Word(k) && OccursAt(s, 0, k)
  {
    assert s[1..1 + WordLength(s[1..])] == k;
  }

  lemma ShiftOccurrence(s: string, step: nat, i: nat, k: string)
    requires step <= |s|
    ensures OccursAt(s[step..], i, k) <==> OccursAt(s, step + i, k)
  {
    if step + i + |k| + 2 <= |s| {
      assert s[step..][i + 1..i + 1 + |k|] == s[step + i + 1..step + i + 1 + |k|];
    }
  }

  lemma SlotsStep(s: string, k: string)
    requires s != ""
    ensures k in Slots(s) <==> SlotAt(s) == Some(k) || k in Slots(Rest(s))
    ensures |Rest(s)| < |s|
  {
    ScanStep(s);
  }

  /** What does not stand at the head stands in the rest. */
  lemma OccursInRest(s: string, i: nat, k: string) returns (j: nat)
    requires 0 < i && OccursAt(s, i, k)
    ensures j < i && OccursAt(Rest(s), j, k)
  {
    PieceEndsBefore(s, i);
    var step := |s| - |Rest(s)|;
    j := i - step;
    ShiftOccurrence(s, step, j, k);
  }

  lemma RestOccurs(s: string, j: nat, k: string) returns (i: nat)
    requires s != "" && OccursAt(Rest(s), j, k)
    ensures OccursAt(s, i, k)
  {
    var step := |s| - |Rest(s)|;
    i := step + j;
    ShiftOccurrence(s, step, j, k);
  }

  /** So wherever a braced word stands, the scan comes to it. */
  lemma {:induction false} OccurrenceIsFound(s: string, i: nat, k: string)
    requires Word(k) && OccursAt(s, i, k)
    ensures k in Slots(s)
    decreases i
  {
    if i == 0 {
      HeadOccurrence(s, k);
    } else {
      var j := OccursInRest(s, i, k);
      OccurrenceIsFound(Rest(s), j, k);
    }
    SlotsStep(s, k);
  }

  lemma {:induction false} SlotOccurs(s: string, k: string) returns (i: nat)
    requires k in Slots(s)
    ensures Word(k) && OccursAt(s, i, k)
    decreases |s|
  {
    SlotsStep(s, k);
    if SlotAt(s) == Some(k) {
      SlotOccursHere(s, k);
      i := 0;
    } else {
      var j := SlotOccurs(Rest(s), k);
      i := RestOccurs(s, j, k);
    }
  }

  lemma SlotIsBetween(s: string, k: string)
    requires k in Slots(s)
    ensures Word(k) && exists a, b :: OccursBetween(s, a, k, b)
  {
    var i := SlotOccurs(s, k);
    OccursAtIsBetween(s, i, k);
  }

  /** The placeholders of a text are exactly the words that stand in braces anywhere in it. */
  lemma SlotsAreOccurrences(s: string, k: string)
    ensures k in Slots(s) <==> Word(k) && exists a, b :: OccursBetween(s, a, k, b)
  {
    if k in Slots(s) {
      SlotIsBetween(s, k);
    }
    if a, b :| Word(k) && OccursBetween(s, a, k, b) {
      OccursBetweenIsAt(s, a, k, b);
      OccurrenceIsFound(s, |a|, k);
    }
  }

  // ---------------------------------------------------------------- filling

  /** The template with its `i`-th placeholder replaced by `texts[i]`. */
  function Substitute(pieces: seq<Piece>, texts: seq<string>): string {
    if pieces == [] then ""
    else match pieces[0]
         case Plain(c) => [c] + Substitute(pieces[1..], texts)
         case Slot(_) => if texts == [] then "" else texts[0] + Substitute(pieces[1..], texts[1..])
  }

  lemma SubstituteStep(s: string, texts: seq<string>)
    requires s != "" && (First(s).Slot? ==> texts != [])
    ensures Substitute(Pieces(s), texts) ==
            match First(s)
            case Plain(c) => [c] + Substitute(Pieces(Rest(s)), texts)
            case Slot(_) => texts[0] + Substitute(Pieces(Rest(s)), texts[1..])
  {
    ScanStep(s);
  }

  function Braced(keys: seq<string>): seq<string> {
    seq(|keys|, i requires 0 <= i < |keys| => "{" + keys[i] + "}")
  }

  lemma SourceStep(s: string)
    requires s != ""
    ensures |Rest(s)| < |s| && s == PieceSource(First(s)) + Rest(s)
  {
    ScanStep(s);
  }

  lemma FirstSlot(s: string)
    requires s != ""
    ensures Slots(s) == if First(s).Slot? then [First(s).key] + Slots(Rest(s)) else Slots(Rest(s))
  {
    ScanStep(s);
  }

  lemma BracedCons(key: string, rest: seq<string>)
    ensures var braced := Braced([key] + rest);
            braced != [] && braced[0] == "{" + key + "}" && braced[1..] == Braced(rest)
  {
  }

  lemma BracedStep(s: string)
    requires s != ""
    ensures var braced := Braced(Slots(s));
            if First(s).Slot?
            then braced != [] && braced[0] == PieceSource(First(s)) && braced[1..] == Braced(Slots(Rest(s)))
            else braced == Braced(Slots(Rest(s)))
  {
    FirstSlot(s);
    if First(s).Slot? {
      BracedCons(First(s).key, Slots(Rest(s)));
    }
  }

  /** Putting every placeholder back gives the template: all else is copied, in place and in order. */
  lemma {:induction false} SubstituteBack(s: string)
    ensures Substitute(Pieces(s), Braced(Slots(s))) == s
    decreases |s|
  {
    if s != "" {
      SourceStep(s);
      BracedStep(s);
      SubstituteStep(s, Braced(Slots(s)));
      SubstituteBack(Rest(s));
    }
  }

  /** Truthiness of `secret[key]`: present and not empty. */
  predicate Has(secret: Record, key: string) {
    key in secret && secret[key] != ""
  }

  function PieceText(piece: Piece, secret: Record): string {
    match piece
    case Plain(c) => [c]
    case Slot(key) => if Has(secret, key) then secret[key] else ""
  }

  function FilledText(pieces: seq<Piece>, secret: Record): string {
    if pieces == [] then "" else PieceText(pieces[0], secret) + FilledText(pieces[1..], secret)
  }

  /** A placeholder stands for what the secret has under its name, or for nothing. */
  function Values(keys: seq<string>, secret: Record): seq<string> {
    seq(|keys|, i requires 0 <= i < |keys| => if keys[i] in secret then secret[keys[i]] else "")
  }

  lemma ValuesCons(key: string, rest: seq<string>, secret: Record)
    ensures var values := Values([key] + rest, secret);
            values != [] && values[0] == PieceText(Slot(key), secret) && values[1..] == Values(rest, secret)
  {
  }

  lemma ValuesStep(s: string, secret: Record)
    requires s != ""
    ensures var values := Values(Slots(s), secret);
            if First(s).Slot?
            then values != [] && values[0] == PieceText(First(s), secret)
                 && values[1..] == Values(Slots(Rest(s)), secret)
            else values == Values(Slots(Rest(s)), secret)
  {
    FirstSlot(s);
    if First(s).Slot? {
      ValuesCons(First(s).key, Slots(Rest(s)), secret);
    }
  }

  lemma FilledStep(s: string, secret: Record)
    requires s != ""
    ensures |Rest(s)| < |s|
    ensures FilledText(Pieces(s), secret) == PieceText(First(s), secret) + FilledText(Pieces(Rest(s)), secret)
  {
    ScanStep(s);
  }

  /** Filling is substitution: each placeholder gives way to its own value, and nothing else changes. */
  lemma {:induction false} FillingIsSubstitution(s: string, secret: Record)
    ensures FilledText(Pieces(s), secret) == Substitute(Pieces(s), Values(Slots(s), secret))
    decreases |s|
  {
    if s != "" {
      FilledStep(s, secret);
      ValuesStep(s, secret);
      SubstituteStep(s, Values(Slots(s), secret));
      FillingIsSubstitution(Rest(s), secret);
    }
  }

  /** Every placeholder of the template has a value. */
  predicate Complete(s: string, secret: Record) {
    forall key :: key in Slots(s) ==> Has(secret, key)
  }

  lemma Associates(a: string, b: string, c: string)
    ensures a + (b + c) == a + b + c
  {
  }

  lemma FillStep(text: string, s: string, secret: Record)
    requires s != ""
    ensures text + FilledText(Pieces(s), secret) ==
            text + PieceText(First(s), secret) + FilledText(Pieces(Rest(s)), secret)
  {
    ScanStep(s);
    Associates(text, PieceText(First(s), secret), FilledText(Pieces(Rest(s)), secret));
  }

  lemma CompleteStep(s: string, secret: Record)
    requires s != ""
    ensures Complete(s, secret) <==> (First(s).Slot? ==> Has(secret, First(s).key)) && Complete(Rest(s), secret)
    ensures |Rest(s)| < |s|
  {
    ScanStep(s);
  }

  /** Replace every placeholder; `missing` is set as soon as one has no value. */
  method FillTemplate(template: string, secret: Record) returns (text: string, missing: bool)
    ensures text == Substitute(Pieces(template), Values(Slots(template), secret))
    ensures text == FilledText(Pieces(template), secret)
    ensures missing <==> !Complete(template, secret)
    ensures missing <==> exists key :: key in Slots(template) && (key in secret ==> secret[key] == "")
  {
    FillingIsSubstitution(template, secret);
    text, missing := "", false;
    var rest := template;
    ghost var whole := FilledText(Pieces(template), secret);
    while rest != ""
      invariant whole == text + FilledText(Pieces(rest), secret)
      invariant Complete(template, secret) <==> !missing && Complete(rest, secret)
      decreases |rest|
    {
      FillStep(text, rest, secret);
      CompleteStep(rest, secret);
      var piece := First(rest);
      if piece.Slot? && !Has(secret, piece.key) {
        missing := true;
      }
      text, rest := text + PieceText(piece, secret), Rest(rest);
    }
  }

  // ---------------------------------------------------------------- credentials

  datatype Field = Field(key: string, caption: string, secret: bool, required: bool)

  /**
   * The parts of a manifest that carry templates, `headers` and `query` being their values in order, and the
   * credential fields if it names them itself.
   */
  datatype Manifest = Manifest(baseUrl: string, headers: seq<string>, query: seq<string>, fields: Option<seq<Field>>)

  function TemplatesOf(m: Manifest): seq<string> {
    [m.baseUrl] + m.headers + m.query
  }

  /** The base URL, a header or a query parameter of the manifest has a placeholder for `key`. */
  ghost predicate Needs(m: Manifest, key: string) {
    || key in Slots(m.baseUrl)
    || (exists t :: t in m.headers && key in Slots(t))
    || (exists t :: t in m.query && key in Slots(t))
  }

  lemma NeedsAreMentions(m: Manifest, key: string)
    ensures Needs(m, key) <==> Mentioned(TemplatesOf(m), key)
  {
    var templates := TemplatesOf(m);
    assert forall t :: t in templates <==> t == m.baseUrl || t in m.headers || t in m.query;
    assert forall t :: key in SlotSet(t) <==> key in Slots(t);
  }

  /**
   * Derive `basic` from username and password. `base64` is the encoding of `username:password`; of it only
   * this is used: it is never empty.
   */
  function NormalizeSecret(base64: string -> string, secret: Record): Record {
    if Has(secret, "basic") || !Has(secret, "username") then secret
    else secret["basic" := base64(secret["username"] + ":" + if "password" in secret then secret["password"] else "")]
  }

  /** `basic` is derived from a user name when it is not given; every other value is the one given. */
  lemma NormalizedValues(base64: string -> string, secret: Record, key: string)
    ensures var normalized, given := NormalizeSecret(base64, secret), if key in secret then secret[key] else "";
            Values([key], normalized)[0] ==
            if key == "basic" && given == "" && "username" in secret && secret["username"] != ""
            then base64(secret["username"] + ":" + Values(["password"], secret)[0])
            else given
  {
  }

  ghost predicate NeverEmpty(base64: string -> string) {
    forall s :: s != "" ==> base64(s) != ""
  }

  /** The manifest can be filled: every template finds all its placeholders. */
  method ValidateCredential(base64: string -> string, m: Manifest, secret: Record) returns (ok: bool)
    ensures ok <==> forall key :: Needs(m, key) ==> Has(NormalizeSecret(base64, secret), key)
  {
    var normalized := NormalizeSecret(base64, secret);
    var templates := TemplatesOf(m);
    for i := 0 to |templates|
      invariant forall j :: 0 <= j < i ==> Complete(templates[j], normalized)
    {
      var _, missing := FillTemplate(templates[i], normalized);
      if missing {
        var key :| key in Slots(templates[i]) && !Has(normalized, key);
        assert key in SlotSet(templates[i]);
        NeedsAreMentions(m, key);
        return false;
      }
    }
    forall key | Needs(m, key) ensures Has(normalized, key) {
      NeedsAreMentions(m, key);
    }
    return true;
  }

  /** Fields the form asks for because of one placeholder. */
  function FieldKeys(key: string): seq<string> {
    if key == "basic" then ["username", "password"] else [key]
  }

  predicate Mentioned(templates: seq<string>, k: string) {
    exists t :: t in templates && k in SlotSet(t)
  }

  predicate HasField(fields: seq<Field>, k: string) {
    exists f :: f in fields && f.key == k
  }

  /** All placeholders of the templates, one template after the other. */
  function AllSlots(templates: seq<string>): seq<string> {
    if templates == [] then []
    else AllSlots(templates[..|templates| - 1]) + Slots(templates[|templates| - 1])
  }

  /** Each element once, in order of first mention. */
  function FirstMentions(keys: seq<string>): (once: seq<string>)
    ensures forall k :: k in once <==> k in keys
    ensures forall a, b :: 0 <= a < b < |once| ==> once[a] != once[b]
  {
    if keys == [] then []
    else
      var last, before := keys[|keys| - 1], FirstMentions(keys[..|keys| - 1]);
      if last in before then before else before + [last]
  }

  /** Later mentions change nothing of the earlier ones, so what comes first stays first. */
  lemma {:induction false} FirstMentionsGrow(keys: seq<string>, more: seq<string>)
    ensures FirstMentions(keys) <= FirstMentions(keys + more)
  {
    if more == [] {
      assert keys + more == keys;
    } else {
      var init, all := more[..|more| - 1], keys + more;
      FirstMentionsGrow(keys, init);
      assert all[..|all| - 1] == keys + init;
    }
  }

  lemma LastSlots(templates: seq<string>, template: string)
    ensures AllSlots(templates + [template]) == AllSlots(templates) + Slots(template)
  {
    assert (templates + [template])[..|templates|] == templates;
  }

  lemma InOneGo(a: seq<string>, b: seq<string>, c: seq<string>)
    ensures a + (b + c) == a + b + c
  {
  }

  /** One template after the other. */
  lemma {:induction false} AllSlotsInOrder(templates: seq<string>, more: seq<string>)
    ensures AllSlots(templates + more) == AllSlots(templates) + AllSlots(more)
    ensures |more| == 1 ==> AllSlots(more) == Slots(more[0])
  {
    if more == [] {
      assert templates + more == templates;
    } else {
      var init, last := more[..|more| - 1], more[|more| - 1];
      AllSlotsInOrder(templates, init);
      LastSlots(templates + init, last);
      LastSlots(init, last);
      InOneGo(AllSlots(templates), AllSlots(init), Slots(last));
      assert more == init + [last];
      InOneGo(templates, init, [last]);
    }
  }

  lemma {:induction false} AllSlotsMentioned(templates: seq<string>, k: string)
    ensures k in AllSlots(templates) <==> Mentioned(templates, k)
  {
    if templates != [] {
      var init, last := templates[..|templates| - 1], templates[|templates| - 1];
      AllSlotsMentioned(init, k);
      forall t ensures t in templates <==> t in init || t == last {
        assert templates == init + [last];
      }
      assert Mentioned(templates, k) <==> Mentioned(init, k) || k in SlotSet(last);
    }
  }

  /** The distinct placeholders of the first `i` templates and of the first `n` of the next one's. */
  ghost function KeysUpTo(templates: seq<string>, i: nat, n: nat): seq<string>
    requires i < |templates| && n <= |Slots(templates[i])|
  {
    FirstMentions(AllSlots(templates[..i]) + Slots(templates[i])[..n])
  }

  lemma FirstKeys(templates: seq<string>, i: nat)
    requires i < |templates|
    ensures KeysUpTo(templates, i, 0) == FirstMentions(AllSlots(templates[..i]))
  {
    assert AllSlots(templates[..i]) + Slots(templates[i])[..0] == AllSlots(templates[..i]);
  }

  lemma NextKey(templates: seq<string>, i: nat, n: nat)
    requires i < |templates| && n < |Slots(templates[i])|
    ensures var keys, key := KeysUpTo(templates, i, n), Slots(templates[i])[n];
            KeysUpTo(templates, i, n + 1) == if key in keys then keys else keys + [key]
  {
    var before, slots := AllSlots(templates[..i]), Slots(templates[i]);
    assert (before + slots[..n + 1])[..|before| + n] == before + slots[..n];
  }

  lemma LastKeys(templates: seq<string>, i: nat)
    requires i < |templates|
    ensures KeysUpTo(templates, i, |Slots(templates[i])|) == FirstMentions(AllSlots(templates[..i + 1]))
  {
    var slots := Slots(templates[i]);
    assert slots[..|slots|] == slots && templates[..i + 1][..i] == templates[..i];
  }

  /** The distinct placeholders of all templates, in order of first mention. */
  method CollectKeys(templates: seq<string>) returns (keys: seq<string>)
    ensures keys == FirstMentions(AllSlots(templates))
  {
    keys := [];
    for i := 0 to |templates|
      invariant keys == FirstMentions(AllSlots(templates[..i]))
    {
      var slots := Slots(templates[i]);
      FirstKeys(templates, i);
      for n := 0 to |slots|
        invariant keys == KeysUpTo(templates, i, n)
      {
        NextKey(templates, i, n);
        if slots[n] !in keys {
          keys := keys + [slots[n]];
        }
      }
      LastKeys(templates, i);
    }
    assert templates[..|templates|] == templates;
  }

  function Lower(s: string): string {
    seq(|s|, i requires 0 <= i < |s| => if 'A' <= s[i] <= 'Z' then s[i] - 'A' + 'a' else s[i])
  }

  predicate Contains(s: string, part: string) {
    exists i :: 0 <= i <= |s| && part <= s[i..]
  }

  const SECRET_HINTS := ["token", "key", "secret", "password", "pass", "basic", "appkey", "apikey", "webhookurl"]

  /** The key, whatever its case, holds one of the hints. */
  predicate LooksSecret(key: string) {
    exists hint :: hint in SECRET_HINTS && Contains(Lower(key), hint)
  }

  /** Basic authentication asks for a user name and a password; any other placeholder for itself. */
  function FieldsFor(labelize: string -> string, key: string): (fields: seq<Field>)
    ensures forall k :: HasField(fields, k) <==> k in FieldKeys(key)
  {
    if key == "basic" then
      var fields := [Field("username", "Username / email", false, true),
                     Field("password", "Password / API token", true, true)];
      assert fields[0] in fields && fields[1] in fields;
      fields
    else
      var fields := [Field(key, labelize(key), LooksSecret(key), true)];
      assert fields[0] in fields;
      fields
  }

  function FieldsOf(labelize: string -> string, keys: seq<string>): seq<Field> {
    if keys == [] then []
    else FieldsOf(labelize, keys[..|keys| - 1]) + FieldsFor(labelize, keys[|keys| - 1])
  }

  lemma {:induction false} FieldsOfKeys(labelize: string -> string, keys: seq<string>, k: string)
    ensures HasField(FieldsOf(labelize, keys), k) <==> exists key :: key in keys && k in FieldKeys(key)
  {
    if keys != [] {
      var init, last := keys[..|keys| - 1], keys[|keys| - 1];
      FieldsOfKeys(labelize, init, k);
      assert keys == init + [last];
      FieldsGrow(FieldsOf(labelize, init), FieldsFor(labelize, last), k);
    }
  }

  /** The letter, in either case, is `small`. */
  predicate IsLetter(c: char, small: char) {
    c == small || ('A' <= c <= 'Z' && c - 'A' + 'a' == small)
  }

  predicate HintAt(key: string, hint: string, i: nat) {
    i + |hint| <= |key| && forall j :: 0 <= j < |hint| ==> IsLetter(key[i + j], hint[j])
  }

  /** The key spells a hint somewhere, in any case. */
  ghost predicate SpellsHint(key: string) {
    exists hint, i: nat ::
      hint in ["token", "key", "secret", "password", "pass", "basic", "appkey", "apikey", "webhookurl"]
      && HintAt(key, hint, i)
  }

  lemma LowerAt(key: string, hint: string, i: nat)
    requires i <= |key| && forall j :: 0 <= j < |hint| ==> !('A' <= hint[j] <= 'Z')
    ensures hint <= Lower(key)[i..] <==> HintAt(key, hint, i)
  {
    var low := Lower(key);
    if hint <= low[i..] {
      forall j | 0 <= j < |hint| ensures IsLetter(key[i + j], hint[j]) {
        assert hint[j] == low[i..][j];
      }
    }
    if HintAt(key, hint, i) {
      forall j | 0 <= j < |hint| ensures hint[j] == low[i..][j] {
        assert IsLetter(key[i + j], hint[j]);
      }
    }
  }

  lemma SecretFlag(key: string)
    ensures LooksSecret(key) <==> SpellsHint(key)
  {
    forall hint, i: nat | hint in SECRET_HINTS && i <= |key|
      ensures hint <= Lower(key)[i..] <==> HintAt(key, hint, i)
    {
      LowerAt(key, hint, i);
    }
    if LooksSecret(key) {
      var hint :| hint in SECRET_HINTS && Contains(Lower(key), hint);
      var i :| 0 <= i <= |key| && hint <= Lower(key)[i..];
      assert HintAt(key, hint, i);
    }
    if SpellsHint(key) {
      var hint, i: nat :| hint in SECRET_HINTS && HintAt(key, hint, i);
      assert Contains(Lower(key), hint);
    }
  }

  /** The field asks for this placeholder, as the form words it. */
  ghost predicate AsksFor(labelize: string -> string, f: Field, key: string) {
    if key == "basic" then
      || f == Field("username", "Username / email", false, true)
      || f == Field("password", "Password / API token", true, true)
    else f.key == key && f.caption == labelize(key) && f.required && (f.secret <==> SpellsHint(key))
  }

  /** Every derived field is worded so for one of the placeholders. */
  lemma {:induction false} FieldsAsk(labelize: string -> string, keys: seq<string>, f: Field)
    requires f in FieldsOf(labelize, keys)
    ensures exists key :: key in keys && AsksFor(labelize, f, key)
  {
    var init, last := keys[..|keys| - 1], keys[|keys| - 1];
    if f in FieldsOf(labelize, init) {
      FieldsAsk(labelize, init, f);
      var key :| key in init && AsksFor(labelize, f, key);
      assert key in keys;
    } else {
      SecretFlag(last);
      assert AsksFor(labelize, f, last);
    }
  }

  lemma FieldsGrow(before: seq<Field>, added: seq<Field>, k: string)
    ensures HasField(before + added, k) <==> HasField(before, k) || HasField(added, k)
  {
    assert forall f :: f in before + added <==> f in before || f in added;
  }

  /**
   * The form's fields: those the manifest names, or else those its placeholders ask for, in order of first
   * mention. `labelize` stands for the default label.
   */
  method DeriveCredentialFields(labelize: string -> string, m: Manifest) returns (fields: seq<Field>)
    ensures m.fields.Some? ==> fields == m.fields.value
    ensures m.fields.None? ==> fields == FieldsOf(labelize, FirstMentions(AllSlots(TemplatesOf(m))))
    ensures m.fields.None? ==> forall k :: HasField(fields, k) <==> exists key :: Needs(m, key) && k in FieldKeys(key)
    ensures m.fields.None? ==> forall f :: f in fields ==> exists key :: Needs(m, key) && AsksFor(labelize, f, key)
  {
    if m.fields.Some? {
      return m.fields.value;
    }
    var keys := CollectKeys(TemplatesOf(m));
    fields := [];
    for i := 0 to |keys|
      invariant fields == FieldsOf(labelize, keys[..i])
    {
      assert keys[..i + 1][..i] == keys[..i];
      if keys[i] == "basic" {
        fields := fields + [Field("username", "Username / email", false, true),
                            Field("password", "Password / API token", true, true)];
      } else {
        fields := fields + [Field(keys[i], labelize(keys[i]), LooksSecret(keys[i]), true)];
      }
    }
    assert keys[..|keys|] == keys;
    forall key ensures key in keys <==> Needs(m, key) {
      AllSlotsMentioned(TemplatesOf(m), key);
      NeedsAreMentions(m, key);
    }
    forall k ensures HasField(fields, k) <==> exists key :: Needs(m, key) && k in FieldKeys(key) {
      FieldsOfKeys(labelize, keys, k);
    }
    forall f | f in fields ensures exists key :: Needs(m, key) && AsksFor(labelize, f, key) {
      FieldsAsk(labelize, keys, f);
    }
  }

  /** The secret is accepted by `ValidateCredential`. */
  ghost predicate Accepts(base64: string -> string, m: Manifest, secret: Record) {
    forall key :: Needs(m, key) ==> Has(NormalizeSecret(base64, secret), key)
  }

  /** The secret has a non-empty value for `key`, which is one of the form's fields. */
  ghost predicate Supplies(m: Manifest, secret: Record) {
    forall key, k :: Needs(m, key) && k in FieldKeys(key) ==> Has(secret, k)
  }

  /** What validation demands, in terms of the secret as the operator typed it. */
  lemma AcceptedExactly(base64: string -> string, m: Manifest, secret: Record)
    requires NeverEmpty(base64)
    ensures Accepts(base64, m, secret) <==>
              && (forall key :: Needs(m, key) && key != "basic" ==> Has(secret, key))
              && (Needs(m, "basic") ==> Has(secret, "basic") || Has(secret, "username"))
  {
    var normalized := NormalizeSecret(base64, secret);
    assert forall key :: key != "basic" ==> (Has(normalized, key) <==> Has(secret, key));
    assert Has(normalized, "basic") <==> Has(secret, "basic") || Has(secret, "username");
  }

  /** Filling in the whole derived form is always enough. */
  lemma CompleteFormIsAccepted(base64: string -> string, m: Manifest, secret: Record)
    requires NeverEmpty(base64) && Supplies(m, secret)
    ensures Accepts(base64, m, secret)
  {
    AcceptedExactly(base64, m, secret);
    forall key | Needs(m, key) && key != "basic" ensures Has(secret, key) {
      assert key in FieldKeys(key);
    }
    assert "username" in FieldKeys("basic");
  }

  // ---------------------------------------------------------------- the base URL in use

  /** The secret's own base URL, even an empty one, replaces the manifest's. */
  function BaseTemplate(m: Manifest, secret: Record): string {
    if "baseUrl" in secret then secret["baseUrl"] else m.baseUrl
  }

  /** Without the slashes at its end. */
  function Trimmed(s: string): (trimmed: string)
    ensures trimmed <= s && (trimmed != "" ==> trimmed[|trimmed| - 1] != '/')
    ensures forall i :: |trimmed| <= i < |s| ==> s[i] == '/'
  {
    if s != "" && s[|s| - 1] == '/' then Trimmed(s[..|s| - 1]) else s
  }

  lemma EmptyValues(s: string, secret: Record)
    ensures "" in Values(Slots(s), secret) <==> exists key :: key in Slots(s) && (key in secret ==> secret[key] == "")
  {
    var values := Values(Slots(s), secret);
    if key :| key in Slots(s) && (key in secret ==> secret[key] == "") {
      var i :| 0 <= i < |values| && Slots(s)[i] == key;
      assert values[i] == "";
    }
    if "" in values {
      var i :| 0 <= i < |values| && values[i] == "";
      assert Slots(s)[i] in Slots(s);
    }
  }

  /** The base URL every operation starts from; `None` stands for the error that it cannot be filled. */
  method ResolveBase(base64: string -> string, m: Manifest, secret: Record) returns (base: Option<string>)
    ensures var template := if "baseUrl" in secret then secret["baseUrl"] else m.baseUrl;
            var values := Values(Slots(template), NormalizeSecret(base64, secret));
            var text := Substitute(Pieces(template), values);
            base == if "" in values || text == "" then None else Some(Trimmed(text))
  {
    var normalized := NormalizeSecret(base64, secret);
    var template := if "baseUrl" in normalized then normalized["baseUrl"] else m.baseUrl;
    assert template == BaseTemplate(m, secret);
    var text, missing := FillTemplate(template, normalized);
    EmptyValues(template, normalized);
    if missing || text == "" {
      return None;
    }
    return Some(Trimmed(text));
  }

  ghost predicate BaseFills(base64: string -> string, m: Manifest, secret: Record) {
    var normalized := NormalizeSecret(base64, secret);
    && Complete(BaseTemplate(m, secret), normalized)
    && FilledText(Pieces(BaseTemplate(m, secret)), normalized) != ""
  }

  /** A template whose placeholders all have values comes out empty only if it is. */
  lemma FilledIsEmptyIff(s: string, secret: Record)
    requires Complete(s, secret)
    ensures FilledText(Pieces(s), secret) == "" <==> s == ""
  {
    if s != "" {
      ScanStep(s);
      assert First(s).Slot? ==> First(s).key in Slots(s);
      assert PieceText(First(s), secret) != "";
    }
  }

  /** A value for a placeholder, in terms of the secret as the operator typed it. */
  predicate Supplied(secret: Record, key: string) {
    Has(secret, key) || (key == "basic" && Has(secret, "username"))
  }

  /**
   * A secret that validation accepts fills the base URL in use iff that is the manifest's, not empty, or its own
   * base URL, not empty and with a value for each of its placeholders, at which validation does not look.
   */
  lemma BaseFillsExactlyWhen(base64: string -> string, m: Manifest, secret: Record)
    requires NeverEmpty(base64) && Accepts(base64, m, secret)
    ensures BaseFills(base64, m, secret) <==>
            if "baseUrl" in secret
            then secret["baseUrl"] != "" && forall key :: key in Slots(secret["baseUrl"]) ==> Supplied(secret, key)
            else m.baseUrl != ""
  {
    var normalized, template := NormalizeSecret(base64, secret), BaseTemplate(m, secret);
    forall key ensures Has(normalized, key) <==> Supplied(secret, key) {
    }
    if "baseUrl" !in secret {
      forall key | key in Slots(m.baseUrl) ensures Has(normalized, key) {
        assert TemplatesOf(m)[0] == m.baseUrl && key in SlotSet(m.baseUrl);
        assert Needs(m, key);
      }
    }
    if Complete(template, normalized) {
      FilledIsEmptyIff(template, normalized);
    }
  }

  // ---------------------------------------------------------------- routing arguments

  /** An argument as sent: `null` and `undefined` become empty text in a path. */
  datatype Arg = Nullish | Given(text: string)

  type Args = map<string, Arg>

  /** Where the arguments of one call end up. */
  datatype Routed = Routed(path: string, query: Record, body: Option<Args>)

  function InPath(encode: string -> string, args: Args, key: string): string {
    encode(if key in args && args[key].Given? then args[key].text else "")
  }

  /** The resolved path: each placeholder takes its argument and deletes it. */
  function PathText(encode: string -> string, pieces: seq<Piece>, args: Args): string {
    if pieces == [] then ""
    else match pieces[0]
         case Plain(c) => [c] + PathText(encode, pieces[1..], args)
         case Slot(key) => InPath(encode, args, key) + PathText(encode, pieces[1..], args - {key})
  }

  function AsText(a: Arg, nullText: string): string {
    if a.Given? then a.text else nullText
  }

  /** Arguments as query parameters. */
  function Texts(args: Args, nullText: string): Record {
    map k | k in args :: AsText(args[k], nullText)
  }

  predicate Bodyless(verb: string) {
    verb == "GET" || verb == "HEAD"
  }

  /**
   * How requests are spelled: the encoding of a value in a path, the query parameters that reading a URL finds in
   * its base and path, and the query's word for an absent value.
   */
  datatype Spelling = Spelling(encode: string -> string, ownQuery: string -> Record, nullText: string)

  /** An operation, with the query parameters its manifest fixes already filled. */
  datatype Operation = Operation(verb: string, path: string, query: Record)

  function PathOf(sp: Spelling, path: string, opArgs: Args): string {
    PathText(sp.encode, Pieces(path), opArgs)
  }

  /** The query parameters that do not come from left-over arguments; the manifest's replace the path's own. */
  function Fixed(sp: Spelling, op: Operation, opArgs: Args): Record {
    sp.ownQuery(PathOf(sp, op.path, opArgs)) + op.query
  }

  /** Where everything goes. */
  function Route(sp: Spelling, op: Operation, opArgs: Args): Routed {
    var text, fixed, rest := PathOf(sp, op.path, opArgs), Fixed(sp, op, opArgs), opArgs - SlotSet(op.path);
    if Bodyless(op.verb) then Routed(text, fixed + Texts(rest, sp.nullText), None) else Routed(text, fixed, Some(rest))
  }

  function PieceInPath(encode: string -> string, piece: Piece, args: Args): string {
    match piece
    case Plain(c) => [c]
    case Slot(key) => InPath(encode, args, key)
  }

  function Unused(piece: Piece, args: Args): Args {
    if piece.Slot? then args - {piece.key} else args
  }

  lemma PathStep(encode: string -> string, text: string, s: string, args: Args)
    requires s != ""
    ensures text + PathText(encode, Pieces(s), args) ==
            text + PieceInPath(encode, First(s), args) + PathText(encode, Pieces(Rest(s)), Unused(First(s), args))
  {
    ScanStep(s);
    Associates(text, PieceInPath(encode, First(s), args), PathText(encode, Pieces(Rest(s)), Unused(First(s), args)));
  }

  lemma UnusedStep(s: string, args: Args)
    requires s != ""
    ensures args - SlotSet(s) == Unused(First(s), args) - SlotSet(Rest(s))
  {
    ScanStep(s);
  }

  /** Replace the placeholders of a path from the arguments, deleting what was used. */
  method ResolvePath(encode: string -> string, path: string, opArgs: Args) returns (resolved: string, args: Args)
    ensures resolved == PathText(encode, Pieces(path), opArgs)
    ensures args == opArgs - SlotSet(path)
  {
    args := opArgs;
    resolved := "";
    var rest := path;
    ghost var whole, left := PathText(encode, Pieces(path), opArgs), opArgs - SlotSet(path);
    while rest != ""
      invariant whole == resolved + PathText(encode, Pieces(rest), args)
      invariant left == args - SlotSet(rest)
      decreases |rest|
    {
      ScanStep(rest);
      PathStep(encode, resolved, rest, args);
      UnusedStep(rest, args);
      var piece := First(rest);
      resolved, args, rest := resolved + PieceInPath(encode, piece, args), Unused(piece, args), Rest(rest);
    }
    assert SlotSet("") == {};
  }

  /** Set each parameter, replacing what has its name. */
  method SetAll(params: Record, more: Record) returns (r: Record)
    ensures r == params + more
  {
    r := params;
    var todo := more.Keys;
    while todo != {}
      invariant todo <= more.Keys
      invariant r == params + (more - todo)
    {
      var k :| k in todo;
      r := r[k := more[k]];
      todo := todo - {k};
    }
    assert more - todo == more;
  }

  /**
   * The REST branch: fill the path from a copy of the arguments, read the URL, set the manifest's parameters, then
   * put the rest of the arguments in the query (GET and HEAD) or in the body.
   */
  method RouteArguments(sp: Spelling, op: Operation, opArgs: Args) returns (r: Routed)
    ensures r == Route(sp, op, opArgs)
  {
    var resolved, args := ResolvePath(sp.encode, op.path, opArgs);
    var params := SetAll(sp.ownQuery(resolved), op.query);
    if Bodyless(op.verb) {
      params := SetAll(params, Texts(args, sp.nullText));
      return Routed(resolved, params, None);
    }
    return Routed(resolved, params, Some(args));
  }

  /** The text that the placeholder at `i` contributes: its argument on the first mention, nothing afterwards. */
  function SlotText(encode: string -> string, slots: seq<string>, args: Args, i: nat): string
    requires i < |slots|
  {
    if slots[i] in slots[..i] then encode("") else InPath(encode, args, slots[i])
  }

  function SlotTexts(encode: string -> string, slots: seq<string>, args: Args): seq<string> {
    seq(|slots|, i requires 0 <= i < |slots| => SlotText(encode, slots, args, i))
  }

  /** Taking the first placeholder's argument away changes later texts exactly as a repeated mention does. */
  lemma LaterTexts(encode: string -> string, key: string, rest: seq<string>, args: Args)
    ensures SlotTexts(encode, [key] + rest, args)[1..] == SlotTexts(encode, rest, args - {key})
  {
    var slots := [key] + rest;
    forall i | 0 <= i < |rest|
      ensures SlotText(encode, slots, args, i + 1) == SlotText(encode, rest, args - {key}, i)
    {
      assert slots[..i + 1] == [key] + rest[..i];
      assert rest[i] in slots[..i + 1] <==> rest[i] == key || rest[i] in rest[..i];
    }
  }

  /** What a path placeholder stands for: its argument's text, encoded, on the first mention; nothing for `null`. */
  lemma PathTexts(encode: string -> string, slots: seq<string>, args: Args, i: nat)
    requires i < |slots|
    ensures var first := forall j :: 0 <= j < i ==> slots[j] != slots[i];
            && |SlotTexts(encode, slots, args)| == |slots|
            && (forall text :: first && slots[i] in args && args[slots[i]] == Given(text) ==>
                  SlotTexts(encode, slots, args)[i] == encode(text))
            && (!first || slots[i] !in args || args[slots[i]] == Nullish ==>
                  SlotTexts(encode, slots, args)[i] == encode(""))
  {
    assert slots[i] in slots[..i] <==> exists j :: 0 <= j < i && slots[j] == slots[i];
  }

  lemma {:induction false} PathIsSubstitution(encode: string -> string, s: string, args: Args)
    ensures PathText(encode, Pieces(s), args) == Substitute(Pieces(s), SlotTexts(encode, Slots(s), args))
    decreases |s|
  {
    if s != "" {
      ScanStep(s);
      if First(s).Slot? {
        PathIsSubstitution(encode, Rest(s), args - {First(s).key});
        LaterTexts(encode, First(s).key, Slots(Rest(s)), args);
      } else {
        PathIsSubstitution(encode, Rest(s), args);
      }
    }
  }

  /** What the request carries under a name, besides its path. */
  predicate Carries(r: Routed, key: string, arg: Arg, nullText: string) {
    match r.body
    case Some(body) => key in body && body[key] == arg
    case None => key in r.query && r.query[key] == match arg { case Given(text) => text case Nullish => nullText }
  }

  /**
   * Conservation, for every path and verb. The resolved path is the template with each placeholder's first
   * mention replaced by its encoded argument (later mentions by empty text). An argument a placeholder names is
   * not sent again; any other is sent once, unchanged, in the query of a body-less request and in the body of
   * another; and nothing is sent that was neither an argument nor a parameter of the path or the manifest.
   */
  lemma ArgumentsAreConserved(sp: Spelling, op: Operation, opArgs: Args)
    ensures var r, fixed := Route(sp, op, opArgs), Fixed(sp, op, opArgs);
            && r.path == Substitute(Pieces(op.path), SlotTexts(sp.encode, Slots(op.path), opArgs))
            && (r.body.None? <==> op.verb == "GET" || op.verb == "HEAD")
            && (forall key :: key in opArgs && key !in Slots(op.path) ==> Carries(r, key, opArgs[key], sp.nullText))
            && (forall key :: key in Slots(op.path) ==>
                  && (r.body.Some? ==> key !in r.body.value)
                  && (key in r.query <==> key in fixed) && (key in fixed ==> r.query[key] == fixed[key]))
            && (forall key :: key in r.query && key !in fixed ==> r.body.None? && key in opArgs)
            && (r.body.Some? ==> r.query == fixed && r.body.value.Keys <= opArgs.Keys)
  {
    PathIsSubstitution(sp.encode, op.path, opArgs);
  }

  /** These parameters arrive as they are. */
  predicate Keeps(r: Routed, params: Record) {
    forall k :: k in params ==> k in r.query && r.query[k] == params[k]
  }

  /** An argument left over for the query. */
  predicate LeftOver(op: Operation, opArgs: Args, k: string) {
    Bodyless(op.verb) && k in opArgs && k !in Slots(op.path)
  }

  /** The parameters a manifest fixes, credentials among them, arrive iff no left-over argument brings another value. */
  lemma ManifestKeptInCall(sp: Spelling, op: Operation, opArgs: Args)
    ensures Keeps(Route(sp, op, opArgs), op.query) <==>
            forall k :: k in op.query && LeftOver(op, opArgs, k) ==> AsText(opArgs[k], sp.nullText) == op.query[k]
  {
    var r := Route(sp, op, opArgs);
    forall k | k in op.query
      ensures k in r.query
      ensures r.query[k] == if LeftOver(op, opArgs, k) then AsText(opArgs[k], sp.nullText) else op.query[k]
    {
    }
  }

  /** Whatever the values, they do iff no argument that is not a placeholder has the name of one of them. */
  lemma ManifestKeptExactlyWhen(sp: Spelling, op: Operation, names: set<string>)
    ensures (forall opArgs: Args :: opArgs.Keys == names ==> Keeps(Route(sp, op, opArgs), op.query))
            <==> (Bodyless(op.verb) ==> forall k :: k in names && k in op.query ==> k in Slots(op.path))
  {
    if Bodyless(op.verb) && exists k :: k in names && k in op.query && k !in Slots(op.path) {
      var k :| k in names && k in op.query && k !in Slots(op.path);
      var opArgs: Args := map name | name in names :: Given(op.query[k] + "!");
      ManifestKeptInCall(sp, op, opArgs);
      assert LeftOver(op, opArgs, k) && AsText(opArgs[k], sp.nullText) != op.query[k];
      assert opArgs.Keys == names;
    } else {
      forall opArgs: Args | opArgs.Keys == names ensures Keeps(Route(sp, op, opArgs), op.query) {
        ManifestKeptInCall(sp, op, opArgs);
      }
    }
  }

  // ---------------------------------------------------------------- a path with a query of its own

  function OwnQuery(sp: Spelling, path: string, opArgs: Args): Record {
    sp.ownQuery(PathOf(sp, path, opArgs))
  }

  /** The value that ends up under the name of one of the path's own parameters. */
  function Winner(sp: Spelling, op: Operation, opArgs: Args, k: string): string
    requires k in OwnQuery(sp, op.path, opArgs)
  {
    if LeftOver(op, opArgs, k) then AsText(opArgs[k], sp.nullText)
    else if k in op.query then op.query[k]
    else OwnQuery(sp, op.path, opArgs)[k]
  }

  lemma OwnQueryKeptInCall(sp: Spelling, op: Operation, opArgs: Args)
    ensures Keeps(Route(sp, op, opArgs), OwnQuery(sp, op.path, opArgs)) <==>
            forall k :: k in OwnQuery(sp, op.path, opArgs) ==>
              Winner(sp, op, opArgs, k) == OwnQuery(sp, op.path, opArgs)[k]
  {
  }

  /** Arguments no placeholder names do not show in the path. */
  lemma PathIgnoresLeftOvers(sp: Spelling, path: string, opArgs: Args, k: string, arg: Arg)
    requires k !in Slots(path)
    ensures PathOf(sp, path, opArgs[k := arg]) == PathOf(sp, path, opArgs)
  {
    PathIsSubstitution(sp.encode, path, opArgs);
    PathIsSubstitution(sp.encode, path, opArgs[k := arg]);
    var slots := Slots(path);
    forall i | 0 <= i < |slots|
      ensures SlotText(sp.encode, slots, opArgs[k := arg], i) == SlotText(sp.encode, slots, opArgs, i)
    {
      assert slots[i] in slots;
    }
    assert SlotTexts(sp.encode, slots, opArgs[k := arg]) == SlotTexts(sp.encode, slots, opArgs);
  }

  /** Arguments with these names and a manifest with these parameters leave the path's own query alone. */
  ghost predicate OwnQueryKept(sp: Spelling, verb: string, path: string, opArgs: Args, query: Record) {
    Keeps(Route(sp, Operation(verb, path, query), opArgs), OwnQuery(sp, path, opArgs))
  }

  /** No parameter of the manifest and, in a body-less request, no left-over argument has this name. */
  predicate Unclaimed(verb: string, path: string, names: set<string>, params: set<string>, k: string) {
    k !in params && (Bodyless(verb) && k in names ==> k in Slots(path))
  }

  lemma OverwrittenByArgument(sp: Spelling, verb: string, path: string, opArgs: Args, query: Record, k: string)
    returns (others: Args)
    requires k in OwnQuery(sp, path, opArgs)
    requires Bodyless(verb) && k in opArgs && k !in Slots(path)
    ensures others.Keys == opArgs.Keys && !OwnQueryKept(sp, verb, path, others, query)
  {
    var arg := Given(OwnQuery(sp, path, opArgs)[k] + "!");
    others := opArgs[k := arg];
    PathIgnoresLeftOvers(sp, path, opArgs, k, arg);
    OwnQueryKeptInCall(sp, Operation(verb, path, query), others);
    assert Winner(sp, Operation(verb, path, query), others, k) != OwnQuery(sp, path, others)[k];
  }

  lemma OverwrittenByManifest(sp: Spelling, verb: string, path: string, opArgs: Args, params: set<string>, k: string)
    returns (query: Record)
    requires k in OwnQuery(sp, path, opArgs) && k in params
    requires Bodyless(verb) && k in opArgs ==> k in Slots(path)
    ensures query.Keys == params && !OwnQueryKept(sp, verb, path, opArgs, query)
  {
    query := map name | name in params :: OwnQuery(sp, path, opArgs)[k] + "!";
    OwnQueryKeptInCall(sp, Operation(verb, path, query), opArgs);
    assert Winner(sp, Operation(verb, path, query), opArgs, k) != OwnQuery(sp, path, opArgs)[k];
  }

  lemma ClaimedIsOverwritten(sp: Spelling, verb: string, path: string, opArgs: Args, params: set<string>, k: string)
    returns (others: Args, query: Record)
    requires k in OwnQuery(sp, path, opArgs) && !Unclaimed(verb, path, opArgs.Keys, params, k)
    ensures others.Keys == opArgs.Keys && query.Keys == params && !OwnQueryKept(sp, verb, path, others, query)
  {
    if Bodyless(verb) && k in opArgs && k !in Slots(path) {
      query := map name | name in params :: "";
      others := OverwrittenByArgument(sp, verb, path, opArgs, query, k);
    } else {
      others := opArgs;
      query := OverwrittenByManifest(sp, verb, path, opArgs, params, k);
    }
  }

  lemma UnclaimedIsKept(sp: Spelling, verb: string, path: string, opArgs: Args, query: Record)
    requires forall k :: k in OwnQuery(sp, path, opArgs) ==> Unclaimed(verb, path, opArgs.Keys, query.Keys, k)
    ensures OwnQueryKept(sp, verb, path, opArgs, query)
  {
    var op, own := Operation(verb, path, query), OwnQuery(sp, path, opArgs);
    forall k | k in own ensures Winner(sp, op, opArgs, k) == own[k] {
      assert Unclaimed(verb, path, opArgs.Keys, query.Keys, k);
    }
    OwnQueryKeptInCall(sp, op, opArgs);
  }

  /**
   * A path that carries a query of its own: whatever the values, its parameters (and the placeholders in them) arrive
   * iff none that some arguments put there has the name of a parameter of the manifest or, in a body-less request, of
   * an argument that is not a placeholder.
   */
  lemma OwnQueryKeptExactlyWhen(sp: Spelling, verb: string, path: string, names: set<string>, params: set<string>)
    ensures (forall opArgs: Args, query: Record :: opArgs.Keys == names && query.Keys == params ==>
               OwnQueryKept(sp, verb, path, opArgs, query))
            <==> forall opArgs: Args, k :: opArgs.Keys == names && k in OwnQuery(sp, path, opArgs) ==>
                   Unclaimed(verb, path, names, params, k)
  {
    if opArgs: Args, k :| opArgs.Keys == names && k in OwnQuery(sp, path, opArgs)
                          && !Unclaimed(verb, path, names, params, k) {
      var others, query := ClaimedIsOverwritten(sp, verb, path, opArgs, params, k);
    } else {
      forall opArgs: Args, query: Record | opArgs.Keys == names && query.Keys == params
        ensures OwnQueryKept(sp, verb, path, opArgs, query)
      {
        UnclaimedIsKept(sp, verb, path, opArgs, query);
      }
    }
  }

  /** Placeholders stand in values only, so that the path's own names are the same in every call. */
  ghost predicate OwnNames(sp: Spelling, path: string, own: set<string>) {
    forall opArgs: Args :: OwnQuery(sp, path, opArgs).Keys == own
  }

  /** Then the condition is one on names alone. */
  lemma OwnNamesKeptExactlyWhen(sp: Spelling, verb: string, path: string, names: set<string>, params: set<string>,
      own: set<string>)
    requires OwnNames(sp, path, own)
    ensures (forall opArgs: Args, query: Record :: opArgs.Keys == names && query.Keys == params ==>
               OwnQueryKept(sp, verb, path, opArgs, query))
            <==> forall k :: k in own ==> Unclaimed(verb, path, names, params, k)
  {
    OwnQueryKeptExactlyWhen(sp, verb, path, names, params);
    var plain: Args := map name | name in names :: Nullish;
    assert plain.Keys == names && OwnQuery(sp, path, plain).Keys == own;
  }

  // ---------------------------------------------------------------- repeated placeholders

  /** Every placeholder's own argument. */
  function OwnTexts(encode: string -> string, slots: seq<string>, args: Args): seq<string> {
    seq(|slots|, i requires 0 <= i < |slots| => InPath(encode, args, slots[i]))
  }

  function SlotCount(pieces: seq<Piece>): nat {
    if pieces == [] then 0 else (if pieces[0].Slot? then 1 else 0) + SlotCount(pieces[1..])
  }

  lemma {:induction false} SlotsAreCounted(s: string)
    ensures SlotCount(Pieces(s)) == |Slots(s)|
    decreases |s|
  {
    if s != "" {
      ScanStep(s);
      SlotsAreCounted(Rest(s));
    }
  }

  /** Longer texts make a longer path. */
  lemma {:induction false} LongerTexts(pieces: seq<Piece>, short: seq<string>, long: seq<string>)
    requires |short| == |long| == SlotCount(pieces)
    requires forall i :: 0 <= i < |short| ==> |short[i]| <= |long[i]|
    ensures |Substitute(pieces, short)| <= |Substitute(pieces, long)|
    ensures (exists i :: 0 <= i < |short| && |short[i]| < |long[i]|) ==>
              |Substitute(pieces, short)| < |Substitute(pieces, long)|
  {
    if pieces != [] {
      if pieces[0].Slot? {
        LongerTexts(pieces[1..], short[1..], long[1..]);
        if i :| 0 <= i < |short| && |short[i]| < |long[i]| {
          if i > 0 {
            assert |short[1..][i - 1]| < |long[1..][i - 1]|;
          }
        }
      } else {
        LongerTexts(pieces[1..], short, long);
      }
    }
  }

  predicate AllDistinct(slots: seq<string>) {
    forall i, j :: 0 <= i < j < |slots| ==> slots[i] != slots[j]
  }

  /** With a repeated placeholder, and an argument for it alone, the path comes out too short. */
  lemma RepeatedSlotLosesText(encode: string -> string, path: string, i: nat, j: nat, text: string)
    requires i < j < |Slots(path)| && Slots(path)[i] == Slots(path)[j]
    requires encode("") == "" && encode(text) != ""
    ensures var args := map[Slots(path)[j] := Given(text)];
            PathText(encode, Pieces(path), args) != Substitute(Pieces(path), OwnTexts(encode, Slots(path), args))
  {
    var slots := Slots(path);
    var args := map[slots[j] := Given(text)];
    var sent, own := SlotTexts(encode, slots, args), OwnTexts(encode, slots, args);
    PathIsSubstitution(encode, path, args);
    SlotsAreCounted(path);
    assert slots[..j][i] == slots[j];
    assert sent[j] == "" && own[j] == encode(text);
    LongerTexts(Pieces(path), sent, own);
  }

  /**
   * The path is the template with every placeholder filled by its own argument, whatever the arguments, iff the
   * placeholders are distinct. Of the encoding only this is used: nothing becomes nothing, and not all text does.
   */
  lemma AllSlotsFilledIffDistinct(encode: string -> string, path: string)
    requires encode("") == "" && exists text :: encode(text) != ""
    ensures (forall args ::
               PathText(encode, Pieces(path), args) == Substitute(Pieces(path), OwnTexts(encode, Slots(path), args)))
            <==> AllDistinct(Slots(path))
  {
    var slots := Slots(path);
    if AllDistinct(slots) {
      forall args
        ensures PathText(encode, Pieces(path), args) == Substitute(Pieces(path), OwnTexts(encode, slots, args))
      {
        PathIsSubstitution(encode, path, args);
        assert SlotTexts(encode, slots, args) == OwnTexts(encode, slots, args);
      }
    } else {
      var text :| encode(text) != "";
      var i, j :| 0 <= i < j < |slots| && slots[i] == slots[j];
      RepeatedSlotLosesText(encode, path, i, j, text);
    }
  }
}
