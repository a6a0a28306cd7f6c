/** Custom message texts: the model of one text, the map of all of them, and the diff that sets a text. */
module MessageTexts {
  import opened Wrappers
  import Folds

  /** The canonical text of a language tag starts with its language subtag, which is in lower case. */
  predicate IsTag(s: string) {
    s == "" || !('A' <= s[0] <= 'Z')
  }

  type Language = s: string | IsTag(s) witness "und"
  const UND: Language := "und"

  const TITLE := "Title"
  const PRE_HEADER := "PreHeader"
  const SUBJECT := "Subject"
  const GREETING := "Greeting"
  const TEXT := "Text"
  const BUTTON_TEXT := "ButtonText"
  const FOOTER_TEXT := "Footer"

  const INIT_CODE := "InitCode"
  const PASSWORD_RESET := "PasswordReset"
  const VERIFY_EMAIL := "VerifyEmail"
  const VERIFY_PHONE := "VerifyPhone"
  const VERIFY_SMS_OTP := "VerifySMSOTP"
  const VERIFY_EMAIL_OTP := "VerifyEmailOTP"
  const DOMAIN_CLAIMED := "DomainClaimed"
  const PASSWORDLESS_REGISTRATION := "PasswordlessRegistration"
  const PASSWORD_CHANGE := "PasswordChange"

  predicate IsMessageTextType(template: string) {
    || template == INIT_CODE || template == PASSWORD_RESET || template == VERIFY_EMAIL || template == VERIFY_PHONE
    || template == VERIFY_SMS_OTP || template == VERIFY_EMAIL_OTP || template == DOMAIN_CLAIMED
    || template == PASSWORDLESS_REGISTRATION || template == PASSWORD_CHANGE
  }

  lemma TheNineTypes(template: string)
    ensures IsMessageTextType(template) <==>
            template in {"InitCode", "PasswordReset", "VerifyEmail", "VerifyPhone", "VerifySMSOTP", "VerifyEmailOTP",
                         "DomainClaimed", "PasswordlessRegistration", "PasswordChange"}
  {
  }

  datatype Event =
    | TextSet(template: string, language: Language, key: string, text: string)
    | TextRemoved(template: string, language: Language, key: string)
    | TemplateRemoved(template: string, language: Language)

  datatype Texts = Texts(title: string, preHeader: string, subject: string, greeting: string,
                         text: string, buttonText: string, footerText: string)

  const NO_TEXTS := Texts("", "", "", "", "", "", "")

  /** The field that a key names; other keys name none. */
  function Get(t: Texts, key: string): string {
    if key == SUBJECT then t.subject
    else if key == TITLE then t.title
    else if key == PRE_HEADER then t.preHeader
    else if key == TEXT then t.text
    else if key == GREETING then t.greeting
    else if key == BUTTON_TEXT then t.buttonText
    else if key == FOOTER_TEXT then t.footerText
    else ""
  }

  function Put(t: Texts, key: string, text: string): Texts {
    if key == SUBJECT then t.(subject := text)
    else if key == TITLE then t.(title := text)
    else if key == PRE_HEADER then t.(preHeader := text)
    else if key == TEXT then t.(text := text)
    else if key == GREETING then t.(greeting := text)
    else if key == BUTTON_TEXT then t.(buttonText := text)
    else if key == FOOTER_TEXT then t.(footerText := text)
    else t
  }

  /** The keys in the order in which a diff goes through them. */
  const KEYS := [GREETING, SUBJECT, TITLE, PRE_HEADER, TEXT, BUTTON_TEXT, FOOTER_TEXT]

  lemma GetPut(t: Texts, key: string, text: string, other: string)
    requires key in KEYS
    ensures Get(Put(t, key, text), other) == if other == key then text else Get(t, other)
  {
  }

  lemma SameTexts(t: Texts, u: Texts)
    ensures t == u <==> forall i :: 0 <= i < |KEYS| ==> Get(t, KEYS[i]) == Get(u, KEYS[i])
  {
    if forall i :: 0 <= i < |KEYS| ==> Get(t, KEYS[i]) == Get(u, KEYS[i]) {
      assert KEYS[0] == GREETING && KEYS[1] == SUBJECT && KEYS[2] == TITLE && KEYS[3] == PRE_HEADER
          && KEYS[4] == TEXT && KEYS[5] == BUTTON_TEXT && KEYS[6] == FOOTER_TEXT;
    }
  }

  // ---------------------------------------------------------------- the model of one text

  datatype State = Unspecified | Active | Removed

  datatype View = View(texts: Texts, state: State)

  const EMPTY := View(NO_TEXTS, Unspecified)

  function Apply(t: Texts, e: Event): Texts {
    match e
    case TextSet(_, _, key, text) => Put(t, key, text)
    case TextRemoved(_, _, key) => Put(t, key, "")
    case TemplateRemoved(_, _) => NO_TEXTS
  }

  function Step(v: View, e: Event, template: string, language: Language): View {
    if e.template != template || e.language != language then v
    else View(Apply(v.texts, e), if e.TextSet? then Active else if e.TemplateRemoved? then Removed else v.state)
  }

  function Reduced(v: View, es: seq<Event>, template: string, language: Language): View {
    if es == [] then v else Step(Reduced(v, es[..|es| - 1], template, language), es[|es| - 1], template, language)
  }

  lemma {:induction false} ReducedConcat(v: View, a: seq<Event>, b: seq<Event>, template: string, language: Language)
    ensures Reduced(v, a + b, template, language) == Reduced(Reduced(v, a, template, language), b, template, language)
  {
    if b == [] {
      assert a + b == a;
    } else {
      ReducedConcat(v, a, b[..|b| - 1], template, language);
      assert (a + b)[..|a + b| - 1] == a + b[..|b| - 1];
    }
  }

  function Load(log: seq<Event>, template: string, language: Language): View {
    Reduced(EMPTY, log, template, language)
  }

  /** The text that an event gives to a key of one text: none if it is about another. */
  function GivesText(template: string, language: Language, key: string): Event -> Option<string> {
    (e: Event) =>
      if e.template != template || e.language != language || (!e.TemplateRemoved? && e.key != key) then None
      else if e.TextSet? then Some(e.text)
      else Some("")
  }

  predicate AreLatestTexts(t: Texts, es: seq<Event>, template: string, language: Language) {
    && t.title == Folds.Latest(es, "", GivesText(template, language, "Title"))
    && t.preHeader == Folds.Latest(es, "", GivesText(template, language, "PreHeader"))
    && t.subject == Folds.Latest(es, "", GivesText(template, language, "Subject"))
    && t.greeting == Folds.Latest(es, "", GivesText(template, language, "Greeting"))
    && t.text == Folds.Latest(es, "", GivesText(template, language, "Text"))
    && t.buttonText == Folds.Latest(es, "", GivesText(template, language, "ButtonText"))
    && t.footerText == Folds.Latest(es, "", GivesText(template, language, "Footer"))
  }

  /** The state that an event gives to one text; the removal of a single key gives none. */
  function GivesState(template: string, language: Language): Event -> Option<State> {
    (e: Event) =>
      if e.template != template || e.language != language || e.TextRemoved? then None
      else if e.TextSet? then Some(Active)
      else Some(Removed)
  }

  /** On every log, each of the seven texts is the one that was last set for its key and not removed since. */
  lemma {:induction false} LoadedTextsAreLatest(log: seq<Event>, template: string, language: Language)
    ensures AreLatestTexts(Load(log, template, language).texts, log, template, language)
    ensures Load(log, template, language).state == Folds.Latest(log, Unspecified, GivesState(template, language))
  {
    if log != [] {
      LoadedTextsAreLatest(log[..|log| - 1], template, language);
    }
  }

  class CustomMessageTextReadModel {
    const template: string
    const language: Language
    var events: seq<Event>
    var texts: Texts
    var state: State

    constructor (template: string, language: Language)
      ensures this.template == template && this.language == language && events == [] && View(texts, state) == EMPTY
    {
      this.template, this.language := template, language;
      events, texts, state := [], NO_TEXTS, Unspecified;
    }

    method AppendEvents(more: seq<Event>)
      modifies `events
      ensures events == old(events) + more
    {
      events := events + more;
    }

    method Reduce()
      modifies this
      ensures View(texts, state) == Reduced(old(View(texts, state)), old(events), template, language) && events == []
    {
      for i := 0 to |events|
        invariant events == old(events)
        invariant View(texts, state) == Reduced(old(View(texts, state)), events[..i], template, language)
      {
        assert events[..i + 1][..i] == events[..i];
        var e := events[i];
        if e.template == template && e.language == language {
          match e
          case TextSet(_, _, key, text) => texts, state := Put(texts, key, text), Active;
          case TextRemoved(_, _, key) => texts := Put(texts, key, "");
          case TemplateRemoved(_, _) => texts, state := NO_TEXTS, Removed;
        }
      }
      assert events[..|events|] == events;
      events := [];
    }
  }

  // ---------------------------------------------------------------- the map of all texts

  datatype CustomText = CustomText(template: string, language: Language, texts: Texts, state: State)

  /** Entries are keyed by the template followed by the language. */
  function KeyOf(e: Event): string {
    e.template + e.language
  }

  function StepMap(m: map<string, CustomText>, e: Event): map<string, CustomText> {
    var k := KeyOf(e);
    match e
    case TextSet(template, language, key, text) =>
      var entry := if k in m then m[k] else CustomText(template, language, NO_TEXTS, Unspecified);
      m[k := entry.(texts := Put(entry.texts, key, text), state := Active)]
    case TextRemoved(_, _, key) =>
      var entry := if k in m then m[k] else CustomText("", UND, NO_TEXTS, Unspecified);
      m[k := entry.(texts := Put(entry.texts, key, ""))]
    case TemplateRemoved(_, _) => m - {k}
  }

  function ReducedMap(m: map<string, CustomText>, es: seq<Event>): map<string, CustomText> {
    if es == [] then m else StepMap(ReducedMap(m, es[..|es| - 1]), es[|es| - 1])
  }

  lemma ReducedMapSnoc(m: map<string, CustomText>, es: seq<Event>, e: Event)
    ensures ReducedMap(m, es + [e]) == StepMap(ReducedMap(m, es), e)
  {
    assert (es + [e])[..|es|] == es;
  }

  /** The texts under a key, empty if there is no entry. */
  function TextsAt(m: map<string, CustomText>, k: string): Texts {
    if k in m then m[k].texts else NO_TEXTS
  }

  predicate ActiveAt(m: map<string, CustomText>, k: string) {
    k in m && m[k].state.Active?
  }

  /** What an entry is on every log: the fold of all events whose template and language spell its key. */
  function OfKey(es: seq<Event>, k: string): View {
    if es == [] then EMPTY
    else
      var v, e := OfKey(es[..|es| - 1], k), es[|es| - 1];
      if KeyOf(e) != k then v
      else View(Apply(v.texts, e), if e.TextSet? then Active else if e.TemplateRemoved? then Removed else v.state)
  }

  lemma {:induction false} EntryFoldsKey(es: seq<Event>, k: string)
    ensures TextsAt(ReducedMap(map[], es), k) == OfKey(es, k).texts
    ensures ActiveAt(ReducedMap(map[], es), k) <==> OfKey(es, k).state.Active?
  {
    if es != [] {
      EntryFoldsKey(es[..|es| - 1], k);
    }
  }

  /** The event that opened the entry under a key: the first since its last removal. */
  function OpenedBy(es: seq<Event>, k: string): Option<Event> {
    if es == [] then None
    else
      var before, e := OpenedBy(es[..|es| - 1], k), es[|es| - 1];
      if KeyOf(e) != k then before
      else if e.TemplateRemoved? then None
      else if before.None? then Some(e) else before
  }

  /** There is an entry while an event has opened it; if that set a text, the entry has its names, and otherwise none. */
  lemma {:induction false} EntryNamedByFirst(es: seq<Event>, k: string)
    ensures var m, first := ReducedMap(map[], es), OpenedBy(es, k);
            && (k in m <==> first.Some?)
            && (k in m && first.value.TextSet? ==> m[k].template == first.value.template && m[k].language == first.value.language)
            && (k in m && !first.value.TextSet? ==> m[k].template == "" && m[k].language == UND)
  {
    if es != [] {
      EntryNamedByFirst(es[..|es| - 1], k);
    }
  }

  /** The map and the single model have the same seven texts, and both have a set text or neither. */
  predicate EntryAgrees(es: seq<Event>, template: string, language: Language) {
    var m, v := ReducedMap(map[], es), Load(es, template, language);
    TextsAt(m, template + language) == v.texts && (ActiveAt(m, template + language) <==> v.state.Active?)
  }

  /** No event of another template or language spells the same key. */
  predicate Unambiguous(es: seq<Event>, template: string, language: Language) {
    forall i :: 0 <= i < |es| && KeyOf(es[i]) == template + language ==> es[i].template == template && es[i].language == language
  }

  /** On every log in which the key is unambiguous, the entry is the single model. */
  lemma EntryIsSingleModel(es: seq<Event>, template: string, language: Language)
    requires Unambiguous(es, template, language)
    ensures EntryAgrees(es, template, language)
  {
    EntryFoldsKey(es, template + language);
    KeyFoldIsSingle(es, template, language);
  }

  lemma {:induction false} KeyFoldIsSingle(es: seq<Event>, template: string, language: Language)
    requires Unambiguous(es, template, language)
    ensures OfKey(es, template + language) == Load(es, template, language)
  {
    if es != [] {
      KeyFoldIsSingle(es[..|es| - 1], template, language);
    }
  }

  /** A vocabulary: which templates occur with which languages. */
  type Vocabulary = iset<(string, Language)>

  ghost predicate Over(es: seq<Event>, p: Vocabulary) {
    forall i :: 0 <= i < |es| ==> (es[i].template, es[i].language) in p
  }

  ghost predicate KeysAreInjective(p: Vocabulary) {
    forall a, b :: a in p && b in p && a.0 + a.1 == b.0 + b.1 ==> a == b
  }

  ghost predicate AgreesEverywhere(p: Vocabulary) {
    forall es, a :: Over(es, p) && a in p ==> EntryAgrees(es, a.0, a.1)
  }

  /** Over a vocabulary the map is the single models on every log exactly if no two pairs spell one key. */
  lemma MapIsSingleModelsIff(p: Vocabulary)
    ensures AgreesEverywhere(p) <==> KeysAreInjective(p)
  {
    if KeysAreInjective(p) {
      forall es, a | Over(es, p) && a in p
        ensures EntryAgrees(es, a.0, a.1)
      {
        EntryIsSingleModel(es, a.0, a.1);
      }
    }
    forall a, b | AgreesEverywhere(p) && a in p && b in p && a.0 + a.1 == b.0 + b.1
      ensures a == b
    {
      var es := [TextSet(a.0, a.1, TITLE, "x")];
      assert Over(es, p) && EntryAgrees(es, b.0, b.1);
      OneText(a, b, "x");
    }
  }

  lemma OneText(a: (string, Language), b: (string, Language), text: string)
    requires a.0 + a.1 == b.0 + b.1 && text != ""
    ensures EntryAgrees([TextSet(a.0, a.1, TITLE, text)], b.0, b.1) ==> a == b
  {
    var e := TextSet(a.0, a.1, TITLE, text);
    assert [] + [e] == [e];
    ReducedMapSnoc(map[], [], e);
    ReducedConcat(EMPTY, [], [e], b.0, b.1);
    assert [e][..0] == [];
    assert Load([e], b.0, b.1) == Step(EMPTY, e, b.0, b.1);
    assert KeyOf(e) == b.0 + b.1;
  }

  // ---------------------------------------------------------------- the nine message types

  /** Where one message type is the beginning of another, a capital letter follows. */
  lemma CapitalAfterType(t: string, u: string)
    requires IsMessageTextType(t) && IsMessageTextType(u) && t <= u
    ensures t == u || (t == VERIFY_EMAIL && u == VERIFY_EMAIL_OTP)
  {
    assert PASSWORD_RESET[8] == 'R' && PASSWORD_CHANGE[8] == 'C' && PASSWORDLESS_REGISTRATION[8] == 'l';
    assert VERIFY_EMAIL[6] == 'E' && VERIFY_PHONE[6] == 'P' && VERIFY_SMS_OTP[6] == 'S' && VERIFY_EMAIL_OTP[6] == 'E';
    assert INIT_CODE[0] == 'I' && DOMAIN_CLAIMED[0] == 'D' && VERIFY_EMAIL[0] == 'V' && PASSWORD_RESET[0] == 'P';
    assert forall i :: 0 <= i < |t| ==> t[i] == u[i];
    assert t[0] == u[0];
  }

  /** A longer type would leave its rest to the language, and no language starts with a capital letter. */
  lemma KeyOfShorterType(t: string, l: Language, u: string, m: Language)
    requires IsMessageTextType(t) && IsMessageTextType(u) && t + l == u + m && |t| <= |u|
    ensures t == u && l == m
  {
    SameKey(t, l, u, m);
    CapitalAfterType(t, u);
    assert VERIFY_EMAIL_OTP[|VERIFY_EMAIL|] == 'O';
  }

  lemma SameKey(t: string, l: string, u: string, m: string)
    requires t + l == u + m && |t| <= |u|
    ensures t <= u && l == u[|t|..] + m
    ensures |t| < |u| ==> l != "" && l[0] == u[|t|]
  {
    assert t == (t + l)[..|t|] && (u + m)[..|t|] == u[..|t|];
    assert l == (t + l)[|t|..] && (u + m)[|t|..] == u[|t|..] + m;
  }

  ghost const MESSAGE_TEXTS: Vocabulary := iset p: (string, Language) | IsMessageTextType(p.0)

  lemma MessageKeysAreInjective()
    ensures KeysAreInjective(MESSAGE_TEXTS)
  {
    forall a, b | a in MESSAGE_TEXTS && b in MESSAGE_TEXTS && a.0 + a.1 == b.0 + b.1
      ensures a == b
    {
      if |a.0| <= |b.0| {
        KeyOfShorterType(a.0, a.1, b.0, b.1);
      } else {
        KeyOfShorterType(b.0, b.1, a.0, a.1);
      }
    }
  }

  /** The events of a log that reach the map: those of the nine types. */
  function Kept(es: seq<Event>): seq<Event> {
    if es == [] then []
    else
      var rest, e := Kept(es[..|es| - 1]), es[|es| - 1];
      if IsMessageTextType(e.template) then rest + [e] else rest
  }

  lemma {:induction false} KeptConcat(a: seq<Event>, b: seq<Event>)
    ensures Kept(a + b) == Kept(a) + Kept(b)
  {
    if b == [] {
      assert a + b == a;
    } else {
      KeptConcat(a, b[..|b| - 1]);
      assert (a + b)[..|a + b| - 1] == a + b[..|b| - 1];
    }
  }

  lemma {:induction false} KeptIsOverTypes(es: seq<Event>)
    ensures Over(Kept(es), MESSAGE_TEXTS)
  {
    if es != [] {
      KeptIsOverTypes(es[..|es| - 1]);
    }
  }

  lemma {:induction false} LoadOfKept(es: seq<Event>, template: string, language: Language)
    requires IsMessageTextType(template)
    ensures Load(Kept(es), template, language) == Load(es, template, language)
  {
    if es != [] {
      var init, e := es[..|es| - 1], es[|es| - 1];
      LoadOfKept(init, template, language);
      if IsMessageTextType(e.template) {
        assert (Kept(init) + [e])[..|Kept(init)|] == Kept(init);
      }
    }
  }

  /** The map that a log loads. */
  function LoadMap(es: seq<Event>): map<string, CustomText> {
    ReducedMap(map[], Kept(es))
  }

  /** On every log the map has, for each of the nine types and each language, what the single model has. */
  lemma TemplatesAgree(es: seq<Event>, template: string, language: Language)
    requires IsMessageTextType(template)
    ensures TextsAt(LoadMap(es), template + language) == Load(es, template, language).texts
    ensures ActiveAt(LoadMap(es), template + language) <==> Load(es, template, language).state.Active?
  {
    MessageKeysAreInjective();
    MapIsSingleModelsIff(MESSAGE_TEXTS);
    KeptIsOverTypes(es);
    LoadOfKept(es, template, language);
    assert (template, language) in MESSAGE_TEXTS;
    assert EntryAgrees(Kept(es), template, language);
  }

  /** The map of an organization with the filter of its own; the fold is that of the embedded model. */
  class CustomMessageTemplatesReadModel {
    var events: seq<Event>
    var templates: map<string, CustomText>

    constructor ()
      ensures events == [] && templates == map[]
    {
      events, templates := [], map[];
    }

    method AppendEvents(more: seq<Event>)
      modifies `events
      ensures events == old(events) + Kept(more)
    {
      for i := 0 to |more|
        invariant events == old(events) + Kept(more[..i])
      {
        assert more[..i + 1][..i] == more[..i];
        if !IsMessageTextType(more[i].template) {
          continue;
        }
        events := events + [more[i]];
      }
      assert more[..|more|] == more;
    }

    method ReduceEvent(e: Event)
      modifies `templates
      ensures templates == StepMap(old(templates), e)
    {
      var k := e.template + e.language;
      match e
      case TextSet(template, language, key, text) =>
        if k !in templates {
          templates := templates[k := CustomText(template, language, NO_TEXTS, Unspecified)];
        }
        templates := templates[k := templates[k].(texts := Put(templates[k].texts, key, text))];
        templates := templates[k := templates[k].(state := Active)];
      case TextRemoved(_, _, key) =>
        if k !in templates {
          templates := templates[k := CustomText("", UND, NO_TEXTS, Unspecified)];
        }
        templates := templates[k := templates[k].(texts := Put(templates[k].texts, key, ""))];
      case TemplateRemoved(_, _) =>
        templates := templates - {k};
    }

    method Reduce()
      modifies this
      ensures templates == ReducedMap(old(templates), old(events)) && events == []
    {
      for i := 0 to |events|
        invariant events == old(events)
        invariant templates == ReducedMap(old(templates), events[..i])
      {
        assert events[..i + 1] == events[..i] + [events[i]];
        ReducedMapSnoc(old(templates), events[..i], events[i]);
        ReduceEvent(events[i]);
      }
      assert events[..|events|] == events;
      events := [];
    }
  }

  // ---------------------------------------------------------------- setting a text

  datatype Message = Message(template: string, language: Language, texts: Texts)

  function FieldChange(msg: Message, have: Texts, key: string): seq<Event> {
    if Get(have, key) == Get(msg.texts, key) then []
    else if Get(msg.texts, key) != "" then [TextSet(msg.template, msg.language, key, Get(msg.texts, key))]
    else [TextRemoved(msg.template, msg.language, key)]
  }

  function Diff(msg: Message, have: Texts, keys: seq<string>): seq<Event> {
    if keys == [] then [] else Diff(msg, have, keys[..|keys| - 1]) + FieldChange(msg, have, keys[|keys| - 1])
  }

  lemma DiffSnoc(msg: Message, have: Texts, keys: seq<string>, key: string)
    ensures Diff(msg, have, keys + [key]) == Diff(msg, have, keys) + FieldChange(msg, have, key)
  {
    assert (keys + [key])[..|keys + [key]| - 1] == keys;
  }

  /** The diff sets the texts that are to be changed and not empty, removes those that are to become empty, and names no other. */
  lemma {:induction false} DiffContents(msg: Message, have: Texts, keys: seq<string>, e: Event)
    ensures e in Diff(msg, have, keys) <==>
            && e.template == msg.template && e.language == msg.language
            && !e.TemplateRemoved? && e.key in keys && Get(have, e.key) != Get(msg.texts, e.key)
            && Get(msg.texts, e.key) == (if e.TextSet? then e.text else "") && (e.TextSet? ==> e.text != "")
  {
    if keys != [] {
      var init, last := keys[..|keys| - 1], keys[|keys| - 1];
      DiffContents(msg, have, init, e);
      assert keys == init + [last];
    }
  }

  lemma DiffOfKeys(msg: Message, have: Texts)
    ensures Diff(msg, have, KEYS) ==
            [] + FieldChange(msg, have, GREETING) + FieldChange(msg, have, SUBJECT) + FieldChange(msg, have, TITLE)
            + FieldChange(msg, have, PRE_HEADER) + FieldChange(msg, have, TEXT) + FieldChange(msg, have, BUTTON_TEXT)
            + FieldChange(msg, have, FOOTER_TEXT)
  {
    var k0 := [GREETING];
    var k1, k2 := k0 + [SUBJECT], k0 + [SUBJECT] + [TITLE];
    var k3, k4 := k2 + [PRE_HEADER], k2 + [PRE_HEADER] + [TEXT];
    var k5 := k4 + [BUTTON_TEXT];
    assert [] + [GREETING] == k0;
    assert k5 + [FOOTER_TEXT] == KEYS;
    DiffSnoc(msg, have, [], GREETING);
    DiffSnoc(msg, have, k0, SUBJECT);
    DiffSnoc(msg, have, k1, TITLE);
    DiffSnoc(msg, have, k2, PRE_HEADER);
    DiffSnoc(msg, have, k3, TEXT);
    DiffSnoc(msg, have, k4, BUTTON_TEXT);
    DiffSnoc(msg, have, k5, FOOTER_TEXT);
  }

  lemma FieldChanged(v: View, msg: Message, have: Texts, key: string, other: string)
    requires key in KEYS && Get(v.texts, key) == Get(have, key)
    ensures var v' := Reduced(v, FieldChange(msg, have, key), msg.template, msg.language);
            Get(v'.texts, other) == if other == key then Get(msg.texts, key) else Get(v.texts, other)
  {
    var es := FieldChange(msg, have, key);
    if es != [] {
      assert es[..0] == [];
      assert Reduced(v, es, msg.template, msg.language) == Step(v, es[0], msg.template, msg.language);
      GetPut(v.texts, key, Get(msg.texts, key), other);
    }
  }

  /** After the diff of some keys the field of a key holds the message's text if it is one of them, and else what it held. */
  predicate AppliedAt(v: View, msg: Message, keys: seq<string>, key: string) {
    var w := Reduced(v, Diff(msg, v.texts, keys), msg.template, msg.language);
    Get(w.texts, key) == if key in keys then Get(msg.texts, key) else Get(v.texts, key)
  }

  lemma AppliedSnoc(v: View, msg: Message, keys: seq<string>, last: string, key: string)
    requires AppliedAt(v, msg, keys, key) && AppliedAt(v, msg, keys, last) && last !in keys && last in KEYS
    ensures AppliedAt(v, msg, keys + [last], key)
  {
    DiffSnoc(msg, v.texts, keys, last);
    ReducedConcat(v, Diff(msg, v.texts, keys), FieldChange(msg, v.texts, last), msg.template, msg.language);
    FieldChanged(Reduced(v, Diff(msg, v.texts, keys), msg.template, msg.language), msg, v.texts, last, key);
  }

  lemma {:induction false} DiffApplied(v: View, msg: Message, keys: seq<string>, key: string)
    requires forall i :: 0 <= i < |keys| ==> keys[i] in KEYS
    requires forall i, j :: 0 <= i < j < |keys| ==> keys[i] != keys[j]
    ensures AppliedAt(v, msg, keys, key)
  {
    if keys != [] {
      var init, last := keys[..|keys| - 1], keys[|keys| - 1];
      assert last !in init && keys == init + [last];
      DiffApplied(v, msg, init, key);
      DiffApplied(v, msg, init, last);
      AppliedSnoc(v, msg, init, last, key);
    }
  }

  lemma {:induction false} DiffIsOfMessage(msg: Message, have: Texts, keys: seq<string>)
    ensures forall e <- Diff(msg, have, keys) :: e.template == msg.template && e.language == msg.language
    ensures Diff(msg, have, keys) == [] <==> forall i :: 0 <= i < |keys| ==> Get(have, keys[i]) == Get(msg.texts, keys[i])
  {
    if keys != [] {
      DiffIsOfMessage(msg, have, keys[..|keys| - 1]);
    }
  }

  lemma {:induction false} ForeignEvents(v: View, es: seq<Event>, template: string, language: Language)
    requires forall e <- es :: e.template != template || e.language != language
    ensures Reduced(v, es, template, language) == v
  {
    if es != [] {
      assert es[|es| - 1] in es;
      ForeignEvents(v, es[..|es| - 1], template, language);
    }
  }

  /**
  Setting a message text makes the folded texts the requested ones, leaves every other template
  and language as it was, and leaves nothing to do for the same request.
  */
  lemma MessageSet(log: seq<Event>, msg: Message)
    ensures var log' := log + Diff(msg, Load(log, msg.template, msg.language).texts, KEYS);
            && Load(log', msg.template, msg.language).texts == msg.texts
            && Diff(msg, Load(log', msg.template, msg.language).texts, KEYS) == []
            && (forall template, language :: (template, language) != (msg.template, msg.language) ==>
                  Load(log', template, language) == Load(log, template, language))
  {
    var before := Load(log, msg.template, msg.language);
    var es := Diff(msg, before.texts, KEYS);
    ReducedConcat(EMPTY, log, es, msg.template, msg.language);
    var after := Reduced(before, es, msg.template, msg.language);
    forall i | 0 <= i < |KEYS|
      ensures Get(after.texts, KEYS[i]) == Get(msg.texts, KEYS[i])
    {
      DiffApplied(before, msg, KEYS, KEYS[i]);
    }
    SameTexts(after.texts, msg.texts);
    DiffIsOfMessage(msg, before.texts, KEYS);
    DiffIsOfMessage(msg, after.texts, KEYS);
    forall template, language | (template, language) != (msg.template, msg.language)
      ensures Load(log + es, template, language) == Load(log, template, language)
    {
      ReducedConcat(EMPTY, log, es, template, language);
      ForeignEvents(Load(log, template, language), es, template, language);
    }
  }

  // ---------------------------------------------------------------- logs of the commands

  /** The event removes a text of one of the nine types; the removals of login texts, for one, are not asked about. */
  predicate RemovesMessageText(e: Event) {
    e.TextRemoved? && IsMessageTextType(e.template)
  }

  /** A message text is removed only where there is one; only then does the removal find its entry in the map. */
  predicate IsTextLog(es: seq<Event>) {
    es == [] ||
    (IsTextLog(es[..|es| - 1]) &&
     var e := es[|es| - 1];
     RemovesMessageText(e) ==> Get(Load(es[..|es| - 1], e.template, e.language).texts, e.key) != "")
  }

  lemma TextLogSnoc(es: seq<Event>, e: Event)
    requires IsTextLog(es) && (RemovesMessageText(e) ==> Get(Load(es, e.template, e.language).texts, e.key) != "")
    ensures IsTextLog(es + [e])
  {
    assert (es + [e])[..|es|] == es;
  }

  /** Pushing a diff leaves a log of commands. */
  lemma {:induction false} DiffKeepsTextLog(log: seq<Event>, msg: Message, keys: seq<string>)
    requires IsTextLog(log)
    requires forall i :: 0 <= i < |keys| ==> keys[i] in KEYS
    requires forall i, j :: 0 <= i < j < |keys| ==> keys[i] != keys[j]
    ensures IsTextLog(log + Diff(msg, Load(log, msg.template, msg.language).texts, keys))
  {
    var before := Load(log, msg.template, msg.language);
    if keys == [] {
      assert log + [] == log;
    } else {
      var init, last := keys[..|keys| - 1], keys[|keys| - 1];
      assert last !in init && keys == init + [last];
      DiffKeepsTextLog(log, msg, init);
      DiffApplied(before, msg, init, last);
      KeepsTextLogSnoc(log, msg, init, last);
    }
  }

  lemma KeepsTextLogSnoc(log: seq<Event>, msg: Message, keys: seq<string>, last: string)
    requires var before := Load(log, msg.template, msg.language);
             IsTextLog(log + Diff(msg, before.texts, keys)) && AppliedAt(before, msg, keys, last) && last !in keys
    ensures IsTextLog(log + Diff(msg, Load(log, msg.template, msg.language).texts, keys + [last]))
  {
    var before := Load(log, msg.template, msg.language);
    DiffSnoc(msg, before.texts, keys, last);
    ReducedConcat(EMPTY, log, Diff(msg, before.texts, keys), msg.template, msg.language);
    ChangeKeepsTextLog(log + Diff(msg, before.texts, keys), msg, before.texts, last);
    assert log + Diff(msg, before.texts, keys + [last]) == log + Diff(msg, before.texts, keys) + FieldChange(msg, before.texts, last);
  }

  lemma ChangeKeepsTextLog(log: seq<Event>, msg: Message, have: Texts, key: string)
    requires IsTextLog(log) && Get(Load(log, msg.template, msg.language).texts, key) == Get(have, key)
    ensures IsTextLog(log + FieldChange(msg, have, key))
  {
    var change := FieldChange(msg, have, key);
    if change == [] {
      assert log + change == log;
    } else {
      assert change == [change[0]];
      TextLogSnoc(log, change[0]);
    }
  }

  lemma SettingKeepsTextLog(log: seq<Event>, msg: Message)
    requires IsTextLog(log)
    ensures IsTextLog(log + Diff(msg, Load(log, msg.template, msg.language).texts, KEYS))
  {
    DiffKeepsTextLog(log, msg, KEYS);
  }

  /** Each entry is kept under the key that its own template and language spell. */
  predicate EntriesAreNamed(m: map<string, CustomText>) {
    forall k <- m :: IsMessageTextType(m[k].template) && k == m[k].template + m[k].language
  }

  lemma {:induction false} LogNamesEntries(log: seq<Event>)
    requires IsTextLog(log)
    ensures EntriesAreNamed(LoadMap(log))
  {
    if log != [] {
      var init, e := log[..|log| - 1], log[|log| - 1];
      LogNamesEntries(init);
      if IsMessageTextType(e.template) {
        TemplatesAgree(init, e.template, e.language);
        ReducedMapSnoc(map[], Kept(init), e);
        NamedStep(LoadMap(init), e);
      }
    }
  }

  lemma NamedStep(m: map<string, CustomText>, e: Event)
    requires EntriesAreNamed(m) && IsMessageTextType(e.template)
    requires e.TextRemoved? ==> Get(TextsAt(m, e.template + e.language), e.key) != ""
    ensures EntriesAreNamed(StepMap(m, e))
  {
  }

  /** One removal for each entry, naming what the entry names. */
  ghost predicate RemovesEntries(es: seq<Event>, m: map<string, CustomText>) {
    && |es| == |m|
    && (forall k <- m :: TemplateRemoved(m[k].template, m[k].language) in es)
    && (forall e <- es :: exists k <- m :: e == TemplateRemoved(m[k].template, m[k].language))
  }

  lemma {:induction false} LoadAfterRemovals(log: seq<Event>, es: seq<Event>, template: string, language: Language)
    requires forall e <- es :: e.TemplateRemoved?
    ensures Load(log + es, template, language)
            == if TemplateRemoved(template, language) in es then View(NO_TEXTS, Removed) else Load(log, template, language)
  {
    if es == [] {
      assert log + es == log;
    } else {
      var init, e := es[..|es| - 1], es[|es| - 1];
      assert es == init + [e];
      assert e in es && e.TemplateRemoved?;
      LoadAfterRemovals(log, init, template, language);
      assert (log + es)[..|log + es| - 1] == log + init;
      assert Load(log + es, template, language) == Step(Load(log + init, template, language), e, template, language);
    }
  }

  /**
  Removing what the map lists leaves no text of the nine types in any language, and every other
  custom text as it was.
  */
  lemma AllMessageTextsRemoved(log: seq<Event>, es: seq<Event>, template: string, language: Language)
    requires IsTextLog(log) && RemovesEntries(es, LoadMap(log))
    ensures var v := Load(log + es, template, language);
            if IsMessageTextType(template) then v.texts == NO_TEXTS && !v.state.Active? else v == Load(log, template, language)
  {
    var m, k := LoadMap(log), template + language;
    LogNamesEntries(log);
    LoadAfterRemovals(log, es, template, language);
    if IsMessageTextType(template) {
      TemplatesAgree(log, template, language);
      if k in m {
        MessageKeysAreInjective();
        assert (m[k].template, m[k].language) in MESSAGE_TEXTS && (template, language) in MESSAGE_TEXTS;
      }
    }
  }

  /** An entry has something to remove. */
  predicate Shows(entry: CustomText) {
    entry.texts != NO_TEXTS || entry.state.Active?
  }

  /** On every log an entry is named by its key or not at all. */
  predicate NamedOrBlank(k: string, entry: CustomText) {
    (IsMessageTextType(entry.template) && k == entry.template + entry.language) || entry.template == ""
  }

  ghost predicate IsSpelled(k: string) {
    exists template: string, language: Language :: IsMessageTextType(template) && template + language == k
  }

  ghost predicate AreNamedOrBlank(m: map<string, CustomText>) {
    forall k <- m :: NamedOrBlank(k, m[k]) && IsSpelled(k)
  }

  lemma NamedOrBlankStep(m: map<string, CustomText>, e: Event)
    requires AreNamedOrBlank(m) && IsMessageTextType(e.template)
    ensures AreNamedOrBlank(StepMap(m, e))
  {
    assert IsMessageTextType(e.template) && e.template + e.language == KeyOf(e);
    assert IsSpelled(KeyOf(e));
  }

  lemma {:induction false} EntriesNamedOrBlank(log: seq<Event>)
    ensures AreNamedOrBlank(LoadMap(log))
  {
    if log != [] {
      var init, e := log[..|log| - 1], log[|log| - 1];
      EntriesNamedOrBlank(init);
      if IsMessageTextType(e.template) {
        ReducedMapSnoc(map[], Kept(init), e);
        NamedOrBlankStep(LoadMap(init), e);
      }
    }
  }

  /** After the removals no message text is left. */
  ghost predicate NothingLeft(log: seq<Event>) {
    forall template, language :: IsMessageTextType(template) ==>
      Load(log, template, language).texts == NO_TEXTS && !Load(log, template, language).state.Active?
  }

  lemma ShownIsRemoved(log: seq<Event>, es: seq<Event>, k: string)
    requires RemovesEntries(es, LoadMap(log)) && NothingLeft(log + es) && k in LoadMap(log) && Shows(LoadMap(log)[k])
    ensures IsMessageTextType(LoadMap(log)[k].template)
  {
    var m := LoadMap(log);
    EntriesNamedOrBlank(log);
    var template: string, language: Language :| IsMessageTextType(template) && template + language == k;
    TemplatesAgree(log, template, language);
    LoadAfterRemovals(log, es, template, language);
    assert TemplateRemoved(template, language) in es;
    var j :| j in m && TemplateRemoved(template, language) == TemplateRemoved(m[j].template, m[j].language);
    assert NamedOrBlank(j, m[j]);
  }

  /**
  On every log, the removals leave no message text exactly if each entry that shows something is
  named, which is what the logs of the commands guarantee.
  */
  lemma NothingLeftIffNamed(log: seq<Event>, es: seq<Event>)
    requires RemovesEntries(es, LoadMap(log))
    ensures NothingLeft(log + es) <==> forall k <- LoadMap(log) :: Shows(LoadMap(log)[k]) ==> IsMessageTextType(LoadMap(log)[k].template)
  {
    var m := LoadMap(log);
    EntriesNamedOrBlank(log);
    if NothingLeft(log + es) {
      forall k | k in m && Shows(m[k])
        ensures IsMessageTextType(m[k].template)
      {
        ShownIsRemoved(log, es, k);
      }
    }
    if forall k <- m :: Shows(m[k]) ==> IsMessageTextType(m[k].template) {
      forall template, language | IsMessageTextType(template)
        ensures Load(log + es, template, language).texts == NO_TEXTS && !Load(log + es, template, language).state.Active?
      {
        NamedIsRemoved(log, es, template, language);
      }
    }
  }

  lemma NamedIsRemoved(log: seq<Event>, es: seq<Event>, template: string, language: Language)
    requires RemovesEntries(es, LoadMap(log)) && IsMessageTextType(template)
    requires var m, k := LoadMap(log), template + language;
             k in m && Shows(m[k]) ==> IsMessageTextType(m[k].template) && k == m[k].template + m[k].language
    ensures Load(log + es, template, language).texts == NO_TEXTS && !Load(log + es, template, language).state.Active?
  {
    var m, k := LoadMap(log), template + language;
    LoadAfterRemovals(log, es, template, language);
    TemplatesAgree(log, template, language);
    if k in m && Shows(m[k]) {
      MessageKeysAreInjective();
      assert (m[k].template, m[k].language) in MESSAGE_TEXTS && (template, language) in MESSAGE_TEXTS;
    }
  }

  class Commands {
    var log: seq<Event>

    ghost predicate Valid()
      reads this
    {
      IsTextLog(log)
    }

    constructor ()
      ensures Valid() && log == []
    {
      log := [];
    }

    method LoadText(template: string, language: Language) returns (wm: CustomMessageTextReadModel)
      ensures fresh(wm) && View(wm.texts, wm.state) == Load(log, template, language)
    {
      wm := new CustomMessageTextReadModel(template, language);
      wm.AppendEvents(log);
      assert wm.events == log;
      wm.Reduce();
    }

    method AppendChange(events: seq<Event>, msg: Message, have: Texts, key: string) returns (r: seq<Event>)
      ensures r == events + FieldChange(msg, have, key)
    {
      r := events;
      if Get(have, key) != Get(msg.texts, key) {
        if Get(msg.texts, key) != "" {
          r := r + [TextSet(msg.template, msg.language, key, Get(msg.texts, key))];
        } else {
          r := r + [TextRemoved(msg.template, msg.language, key)];
        }
      }
    }

    method SetDefaultMessageTextEvents(msg: Message) returns (r: Result<seq<Event>, Error>)
      ensures r == if msg.template != "" && msg.language != UND then Ok(Diff(msg, Load(log, msg.template, msg.language).texts, KEYS))
                   else Err(InvalidArgument("INSTANCE-kd9fs"))
    {
      if msg.template == "" || msg.language == UND {
        return Err(InvalidArgument("INSTANCE-kd9fs"));
      }
      var existing := LoadText(msg.template, msg.language);
      var have := existing.texts;
      var events: seq<Event> := [];
      events := AppendChange(events, msg, have, GREETING);
      events := AppendChange(events, msg, have, SUBJECT);
      events := AppendChange(events, msg, have, TITLE);
      events := AppendChange(events, msg, have, PRE_HEADER);
      events := AppendChange(events, msg, have, TEXT);
      events := AppendChange(events, msg, have, BUTTON_TEXT);
      events := AppendChange(events, msg, have, FOOTER_TEXT);
      DiffOfKeys(msg, have);
      return Ok(events);
    }

    method SetDefaultMessageText(msg: Message) returns (r: Result<(), Error>)
      requires Valid()
      modifies `log
      ensures Valid()
      ensures r == if msg.template != "" && msg.language != UND then Ok(()) else Err(InvalidArgument("INSTANCE-kd9fs"))
      ensures r.Err? ==> log == old(log)
      ensures r.Ok? ==>
                && log == old(log) + Diff(msg, Load(old(log), msg.template, msg.language).texts, KEYS)
                && Load(log, msg.template, msg.language).texts == msg.texts
                && (forall template, language :: (template, language) != (msg.template, msg.language) ==>
                      Load(log, template, language) == Load(old(log), template, language))
    {
      var events := SetDefaultMessageTextEvents(msg);
      if events.Err? {
        return Err(events.error);
      }
      MessageSet(log, msg);
      SettingKeepsTextLog(log, msg);
      log := log + events.value;
      return Ok(());
    }

    method RemoveInstanceMessageTexts(template: string, language: Language) returns (r: Result<(), Error>)
      requires Valid()
      modifies `log
      ensures Valid()
      ensures r == if template == "" || language == UND then Err(InvalidArgument("INSTANCE-fjw9b"))
                   else if !Load(old(log), template, language).state.Active? then Err(NotFound("INSTANCE-fju90"))
                   else Ok(())
      ensures r.Err? ==> log == old(log)
      ensures r.Ok? ==>
                && log == old(log) + [TemplateRemoved(template, language)]
                && Load(log, template, language) == View(NO_TEXTS, Removed)
                && (IsMessageTextType(template) ==> template + language !in LoadMap(log))
    {
      if template == "" || language == UND {
        return Err(InvalidArgument("INSTANCE-fjw9b"));
      }
      var existing := LoadText(template, language);
      if existing.state.Unspecified? || existing.state.Removed? {
        return Err(NotFound("INSTANCE-fju90"));
      }
      var e := TemplateRemoved(template, language);
      TextLogSnoc(log, e);
      log := log + [e];
      assert log[..|log| - 1] == old(log);
      return Ok(());
    }

    /** What the commands of other custom texts push into the same log, removals of empty login texts included. */
    method PushOther(e: Event)
      requires Valid() && !IsMessageTextType(e.template)
      modifies `log
      ensures Valid() && log == old(log) + [e] && LoadMap(log) == LoadMap(old(log))
    {
      TextLogSnoc(log, e);
      log := log + [e];
      assert log[..|log| - 1] == old(log);
    }

    /** The removals that go with removing an organization; this log is then the organization's. */
    method RemoveOrgMessageTextsIfExists() returns (events: seq<Event>)
      requires Valid()
      ensures RemovesEntries(events, LoadMap(log))
      ensures NothingLeft(log + events)
      ensures forall template, language :: !IsMessageTextType(template) ==>
                Load(log + events, template, language) == Load(log, template, language)
    {
      var wm := new CustomMessageTemplatesReadModel();
      wm.AppendEvents(log);
      assert wm.events == Kept(log);
      wm.Reduce();
      events := RemoveAll(wm.templates);
      forall template, language
        ensures var v := Load(log + events, template, language);
                if IsMessageTextType(template) then v.texts == NO_TEXTS && !v.state.Active?
                else v == Load(log, template, language)
      {
        AllMessageTextsRemoved(log, events, template, language);
      }
    }

    method RemoveAll(m: map<string, CustomText>) returns (events: seq<Event>)
      ensures RemovesEntries(events, m)
    {
      events := [];
      var rest := m.Keys;
      while rest != {}
        invariant rest <= m.Keys && |events| + |rest| == |m.Keys|
        invariant forall k <- m.Keys - rest :: TemplateRemoved(m[k].template, m[k].language) in events
        invariant forall e <- events :: exists k <- m :: e == TemplateRemoved(m[k].template, m[k].language)
        decreases |rest|
      {
        var k :| k in rest;
        events := events + [TemplateRemoved(m[k].template, m[k].language)];
        rest := rest - {k};
      }
    }
  }
}
