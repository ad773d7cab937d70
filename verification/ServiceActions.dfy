/** Stored boiler actions: the legacy free text, the structured fields, and the way between. */
module ServiceActions {
  import opened Options

  datatype ServiceAction = ServiceAction(domain: string, service: string, data: map<string, string>)

  /** The optional extra data of a structured action: absent or empty, a mapping, or a mistake. */
  datatype Extra = NoExtra | Mapping(items: map<string, string>) | NotAMapping

  /** What a store may hold; a field that is missing or no string reads as None. */
  datatype Spec =
    | NoSpec
    | Text(text: string)
    | Fields(entityId: Option<string>, action: Option<string>, data: Extra)
    | Other

  const ENTITY_ID := "entity_id"

  // ----- Strings -----

  /** The characters Python strips. */
  predicate IsSpace(c: char) {
    var k := c as int;
    || 0x09 <= k <= 0x0d || 0x1c <= k <= 0x20 || k == 0x85 || k == 0xa0 || k == 0x1680
    || 0x2000 <= k <= 0x200a || k == 0x2028 || k == 0x2029 || k == 0x202f || k == 0x205f || k == 0x3000
  }

  function StripRight(s: string): (r: string)
    ensures r <= s && (r == "" || !IsSpace(r[|r| - 1]))
  {
    if s != "" && IsSpace(s[|s| - 1]) then StripRight(s[..|s| - 1]) else s
  }

  function StripLeft(s: string): (r: string)
    ensures |r| <= |s| && (r == "" || (!IsSpace(r[0]) && r[|r| - 1] == s[|s| - 1]))
  {
    if s != "" && IsSpace(s[0]) then StripLeft(s[1..]) else s
  }

  predicate Stripped(s: string) {
    s == "" || (!IsSpace(s[0]) && !IsSpace(s[|s| - 1]))
  }

  function Strip(s: string): (r: string)
    ensures Stripped(r)
    ensures Stripped(s) ==> r == s
  {
    StripLeft(StripRight(s))
  }

  /** Where `c` first stands in `s`, or the length of `s`. */
  function IndexOf(s: string, c: char): (i: nat)
    ensures i <= |s| && (i < |s| ==> s[i] == c)
    ensures forall j :: 0 <= j < i ==> s[j] != c
  {
    if s == "" || s[0] == c then 0 else 1 + IndexOf(s[1..], c)
  }

  predicate Has(s: string, c: char) {
    IndexOf(s, c) < |s|
  }

  function Before(s: string, c: char): string {
    s[..IndexOf(s, c)]
  }

  function After(s: string, c: char): string
    requires Has(s, c)
  {
    s[IndexOf(s, c) + 1..]
  }

  /** Every part between two `c`. */
  function Split(s: string, c: char): seq<string>
    decreases |s|
  {
    if Has(s, c) then [Before(s, c)] + Split(After(s, c), c) else [s]
  }

  /** The parts that are more than blank, stripped. */
  function Telling(parts: seq<string>): seq<string> {
    if parts == [] then []
    else if Strip(parts[0]) == "" then Telling(parts[1..])
    else [Strip(parts[0])] + Telling(parts[1..])
  }

  lemma {:induction false} TellingIsStripped(parts: seq<string>, i: nat)
    requires i < |Telling(parts)|
    ensures Stripped(Telling(parts)[i])
    decreases |parts|
  {
    if Strip(parts[0]) == "" {
      TellingIsStripped(parts[1..], i);
    } else if i > 0 {
      TellingIsStripped(parts[1..], i - 1);
    }
  }

  predicate Lacks(s: string, c: char) {
    forall i :: 0 <= i < |s| ==> s[i] != c
  }

  lemma {:induction false} StripRightLacks(s: string, c: char)
    requires Lacks(s, c)
    ensures Lacks(StripRight(s), c)
    decreases |s|
  {
    if s != "" && IsSpace(s[|s| - 1]) {
      StripRightLacks(s[..|s| - 1], c);
    }
  }

  lemma {:induction false} StripLeftLacks(s: string, c: char)
    requires Lacks(s, c)
    ensures Lacks(StripLeft(s), c)
    decreases |s|
  {
    if s != "" && IsSpace(s[0]) {
      StripLeftLacks(s[1..], c);
    }
  }

  // ----- Parsing -----

  /** An attribute part `key:value` sets its key; any other part says nothing. */
  function WithAttribute(data: map<string, string>, part: string): map<string, string> {
    if Has(part, ':') then data[Strip(Before(part, ':')) := Strip(After(part, ':'))] else data
  }

  function WithAttributes(data: map<string, string>, parts: seq<string>): map<string, string> {
    if parts == [] then data
    else WithAttribute(WithAttributes(data, parts[..|parts| - 1]), parts[|parts| - 1])
  }

  function ParsedText(text: string): Option<ServiceAction> {
    var parts := Telling(Split(text, '/'));
    if |parts| < 2 || !Has(parts[0], '.') || !Has(parts[1], '.') then None
    else Some(ServiceAction(Strip(Before(parts[1], '.')), Strip(After(parts[1], '.')),
                            WithAttributes(map[ENTITY_ID := parts[0]], parts[2..])))
  }

  function ParsedFields(entityId: Option<string>, action: Option<string>, data: Extra): Option<ServiceAction> {
    if entityId.None? || action.None? then None
    else
      var entity, call := Strip(entityId.value), Strip(action.value);
      if !Has(entity, '.') || !Has(call, '.') then None
      else
        var domain, service := Strip(Before(call, '.')), Strip(After(call, '.'));
        if domain == "" || service == "" || data.NotAMapping? then None
        else
          var own := map[ENTITY_ID := entity];
          Some(ServiceAction(domain, service, if data.Mapping? then own + data.items else own))
  }

  function Parsed(spec: Spec): Option<ServiceAction> {
    match spec
    case Text(text) => ParsedText(text)
    case Fields(entityId, action, data) => ParsedFields(entityId, action, data)
    case _ => None
  }

  method ParseText(text: string) returns (r: Option<ServiceAction>)
    ensures r == ParsedText(text)
  {
    var parts := Telling(Split(text, '/'));
    if |parts| < 2 || !Has(parts[0], '.') || !Has(parts[1], '.') {
      return None;
    }
    var data := map[ENTITY_ID := parts[0]];
    var extras := parts[2..];
    for i := 0 to |extras|
      invariant data == WithAttributes(map[ENTITY_ID := parts[0]], extras[..i])
    {
      assert extras[..i + 1][..i] == extras[..i];
      if Has(extras[i], ':') {
        var key, value := Before(extras[i], ':'), After(extras[i], ':');
        data := data[Strip(key) := Strip(value)];
      }
    }
    assert extras[..|extras|] == extras;
    r := Some(ServiceAction(Strip(Before(parts[1], '.')), Strip(After(parts[1], '.')), data));
  }

  // ----- The structured form of a stored action -----

  function FieldsOf(a: ServiceAction): Spec
    requires ENTITY_ID in a.data
  {
    var rest := a.data - {ENTITY_ID};
    Fields(Some(a.data[ENTITY_ID]), Some(a.domain + "." + a.service), if rest == map[] then NoExtra else Mapping(rest))
  }

  /** None when the stored value does not parse. */
  function ServiceActionFields(spec: Spec): Option<Spec> {
    var a := Parsed(spec);
    if a.Some? then
      ParsedHasEntity(spec);
      Some(FieldsOf(a.value))
    else None
  }

  /** Attributes change only the keys they name. */
  lemma {:induction false} AttributesKeepKeys(data: map<string, string>, parts: seq<string>, key: string)
    requires key in data
    ensures key in WithAttributes(data, parts)
    ensures NeverNames(parts, key) ==> WithAttributes(data, parts)[key] == data[key]
    decreases |parts|
  {
    if parts != [] {
      AttributesKeepKeys(data, parts[..|parts| - 1], key);
    }
  }

  predicate NeverNames(parts: seq<string>, key: string) {
    forall i :: 0 <= i < |parts| ==> !Names(parts[i], key)
  }

  predicate Names(part: string, key: string) {
    Has(part, ':') && Strip(Before(part, ':')) == key
  }

  /** Whatever parses names an entity, a dot-free stripped domain and a stripped service. */
  lemma ParsedHasEntity(spec: Spec)
    ensures var a := Parsed(spec);
            a.Some? ==> ENTITY_ID in a.value.data && CallIsClean(a.value.domain, a.value.service)
  {
    if Parsed(spec).Some? {
      if spec.Text? {
        var parts := Telling(Split(spec.text, '/'));
        AttributesKeepKeys(map[ENTITY_ID := parts[0]], parts[2..], ENTITY_ID);
        SplitCallIsClean(parts[1]);
      } else {
        SplitCallIsClean(Strip(spec.action.value));
      }
    }
  }

  predicate CallIsClean(domain: string, service: string) {
    Lacks(domain, '.') && Stripped(domain) && Stripped(service)
  }

  lemma SplitCallIsClean(call: string)
    requires Has(call, '.')
    ensures CallIsClean(Strip(Before(call, '.')), Strip(After(call, '.')))
  {
    StripRightLacks(Before(call, '.'), '.');
    StripLeftLacks(StripRight(Before(call, '.')), '.');
  }

  /** What the structured form needs to keep an action. */
  predicate Representable(a: ServiceAction) {
    && a.domain != "" && a.service != ""
    && ENTITY_ID in a.data && Stripped(a.data[ENTITY_ID]) && Has(a.data[ENTITY_ID], '.')
  }

  /** Joined by a dot, a clean call comes apart again and needs no stripping. */
  lemma CallSplits(domain: string, service: string, call: string)
    requires CallIsClean(domain, service) && call == domain + "." + service
    ensures Strip(call) == call && Has(call, '.') && Before(call, '.') == domain && After(call, '.') == service
  {
    var n := |domain|;
    assert call[n] == '.';
    assert forall j :: 0 <= j < n ==> call[j] == domain[j];
    assert IndexOf(call, '.') == n;
    assert call[..n] == domain && call[n + 1..] == service;
    assert call[0] == if n == 0 then '.' else domain[0];
    assert call[|call| - 1] == if service == "" then '.' else service[|service| - 1];
  }

  /** How the structured form of an action parses. */
  lemma FieldsParseBack(a: ServiceAction, entity: string)
    requires ENTITY_ID in a.data && CallIsClean(a.domain, a.service) && entity == Strip(a.data[ENTITY_ID])
    ensures Parsed(FieldsOf(a)) ==
            if !Has(entity, '.') || a.domain == "" || a.service == "" then None
            else Some(a.(data := a.data[ENTITY_ID := entity]))
  {
    var call := a.domain + "." + a.service;
    CallSplits(a.domain, a.service, call);
    var rest := a.data - {ENTITY_ID};
    var own := map[ENTITY_ID := entity];
    assert own + rest == a.data[ENTITY_ID := entity];
    if rest == map[] {
      assert own + rest == own;
    }
  }

  /** For every spec that parses, its structured form parses back to the same action exactly
      when domain and service are named and the entity id is stripped and dotted. */
  lemma RoundTripExactly(spec: Spec)
    requires Parsed(spec).Some?
    ensures ServiceActionFields(spec).Some?
    ensures var a := Parsed(spec).value;
            Parsed(ServiceActionFields(spec).value) == Some(a) <==> Representable(a)
  {
    var a := Parsed(spec).value;
    ParsedHasEntity(spec);
    var given := a.data[ENTITY_ID];
    FieldsParseBack(a, Strip(given));
    assert a.data[ENTITY_ID := Strip(given)] == a.data <==> Strip(given) == given;
  }

  /** No attribute of the spec renames the entity. */
  predicate KeepsEntity(spec: Spec) {
    match spec
    case Text(text) =>
      var parts := Telling(Split(text, '/'));
      |parts| >= 2 ==> NeverNames(parts[2..], ENTITY_ID)
    case Fields(_, _, data) => data.Mapping? ==> ENTITY_ID !in data.items
    case _ => true
  }

  /** Without such an attribute every spec with a named domain and service round-trips. */
  lemma RoundTrip(spec: Spec)
    requires KeepsEntity(spec)
    requires var a := Parsed(spec); a.Some? && a.value.domain != "" && a.value.service != ""
    ensures ServiceActionFields(spec).Some? && Parsed(ServiceActionFields(spec).value) == Parsed(spec)
  {
    RoundTripExactly(spec);
    if spec.Text? {
      var parts := Telling(Split(spec.text, '/'));
      TellingIsStripped(Split(spec.text, '/'), 0);
      AttributesKeepKeys(map[ENTITY_ID := parts[0]], parts[2..], ENTITY_ID);
    }
  }

  // ----- The legacy text, written out -----

  /** A part the text form can carry: no separator, nothing to strip, not blank. */
  predicate Plain(s: string) {
    s != "" && Stripped(s) && Lacks(s, '/')
  }

  datatype Attribute = Attribute(key: string, value: string)

  predicate PlainAttribute(a: Attribute) {
    Plain(a.key) && Plain(a.value) && Lacks(a.key, ':')
  }

  function AttributeText(a: Attribute): string {
    a.key + ":" + a.value
  }

  /** The parts of a text, joined by its separator. */
  function Joined(parts: seq<string>): string
    requires parts != []
  {
    if |parts| == 1 then parts[0] else parts[0] + "/" + Joined(parts[1..])
  }

  function AttributeTexts(attributes: seq<Attribute>): seq<string> {
    if attributes == [] then []
    else AttributeTexts(attributes[..|attributes| - 1]) + [AttributeText(attributes[|attributes| - 1])]
  }

  /** The data of an action: its entity, then each attribute in turn. */
  function DataOf(entity: string, attributes: seq<Attribute>): map<string, string> {
    if attributes == [] then map[ENTITY_ID := entity]
    else
      var last := attributes[|attributes| - 1];
      DataOf(entity, attributes[..|attributes| - 1])[last.key := last.value]
  }

  predicate AllPlain(parts: seq<string>) {
    forall i :: 0 <= i < |parts| ==> Plain(parts[i])
  }

  lemma IndexAfterLacking(a: string, c: char, b: string)
    requires Lacks(a, c)
    ensures var s := a + [c] + b; Has(s, c) && Before(s, c) == a && After(s, c) == b
  {
    var s, n := a + [c] + b, |a|;
    assert s[n] == c;
    assert forall j :: 0 <= j < n ==> s[j] == a[j];
    assert IndexOf(s, c) == n;
  }

  lemma LackingHasNot(s: string, c: char)
    requires Lacks(s, c)
    ensures !Has(s, c)
  {
  }

  /** Joining plain parts and taking them apart gives them back. */
  lemma {:induction false} JoinedSplits(parts: seq<string>)
    requires parts != [] && AllPlain(parts)
    ensures Telling(Split(Joined(parts), '/')) == parts
    decreases |parts|
  {
    if |parts| == 1 {
      LackingHasNot(parts[0], '/');
      assert Split(parts[0], '/') == [parts[0]];
      assert Telling([parts[0]]) == [parts[0]] + Telling([]);
    } else {
      var rest := Joined(parts[1..]);
      IndexAfterLacking(parts[0], '/', rest);
      assert Joined(parts) == parts[0] + ['/'] + rest;
      JoinedSplits(parts[1..]);
      var split := Split(rest, '/');
      assert Split(Joined(parts), '/') == [parts[0]] + split;
      assert ([parts[0]] + split)[1..] == split;
    }
  }

  // ----- Blanks around the parts -----

  /** Blank, tab and line ends, the separators of ASCII, and the blanks of Unicode. */
  const BLANKS: set<char> := {
    '\t', '\n', '\U{b}', '\U{c}', '\r', '\U{1c}', '\U{1d}', '\U{1e}', '\U{1f}', ' ', '\U{85}', '\U{a0}', '\U{1680}',
    '\U{2000}', '\U{2001}', '\U{2002}', '\U{2003}', '\U{2004}', '\U{2005}', '\U{2006}', '\U{2007}', '\U{2008}',
    '\U{2009}', '\U{200a}', '\U{2028}', '\U{2029}', '\U{202f}', '\U{205f}', '\U{3000}'}

  predicate Blank(s: string) {
    forall i :: 0 <= i < |s| ==> s[i] in BLANKS
  }

  /** Nothing else counts as blank. */
  lemma BlanksAreSpaces(c: char)
    ensures IsSpace(c) <==> c in BLANKS
  {
  }

  /** Visible ASCII without the separator. */
  predicate Ordinary(s: string) {
    forall i :: 0 <= i < |s| ==> '!' <= s[i] <= '~' && s[i] != '/'
  }

  lemma OrdinaryIsPlain(s: string)
    requires s != "" && Ordinary(s)
    ensures Plain(s)
  {
  }

  lemma {:induction false} StripRightOfBlank(s: string, b: string)
    requires Blank(b)
    ensures StripRight(s + b) == StripRight(s)
    decreases |b|
  {
    if b == "" {
      assert s + b == s;
    } else {
      BlanksAreSpaces(b[|b| - 1]);
      assert (s + b)[..|s + b| - 1] == s + b[..|b| - 1];
      StripRightOfBlank(s, b[..|b| - 1]);
    }
  }

  lemma {:induction false} StripLeftOfBlank(a: string, s: string)
    requires Blank(a)
    ensures StripLeft(a + s) == StripLeft(s)
    decreases |a|
  {
    if a == "" {
      assert a + s == s;
    } else {
      BlanksAreSpaces(a[0]);
      assert (a + s)[1..] == a[1..] + s;
      StripLeftOfBlank(a[1..], s);
    }
  }

  /** Stripping on the right stops inside `s` if `s` holds anything to stop at. */
  lemma {:induction false} StripRightBehind(a: string, s: string)
    ensures StripRight(a + s) == if StripRight(s) == "" then StripRight(a) else a + StripRight(s)
    decreases |s|
  {
    if s == "" {
      assert a + s == a;
    } else if IsSpace(s[|s| - 1]) {
      assert (a + s)[..|a + s| - 1] == a + s[..|s| - 1];
      StripRightBehind(a, s[..|s| - 1]);
    }
  }

  lemma PaddingStrips(a: string, s: string, b: string)
    requires Blank(a) && Blank(b)
    ensures Strip(a + s + b) == Strip(s)
  {
    StripRightOfBlank(a + s, b);
    StripRightBehind(a, s);
    if StripRight(s) == "" {
      StripRightOfBlank("", a);
      assert "" + a == a;
    } else {
      StripLeftOfBlank(a, StripRight(s));
    }
  }

  /** A part with blanks around it. */
  ghost predicate Pads(padded: string, part: string) {
    exists a, b :: Blank(a) && Blank(b) && padded == a + part + b
  }

  lemma PaddedStrips(padded: string, part: string)
    requires Pads(padded, part)
    ensures Strip(padded) == Strip(part)
  {
    var a, b :| Blank(a) && Blank(b) && padded == a + part + b;
    PaddingStrips(a, part, b);
  }

  lemma PaddedLacks(padded: string, part: string)
    requires Pads(padded, part) && Lacks(part, '/')
    ensures Lacks(padded, '/')
  {
    var a, b :| Blank(a) && Blank(b) && padded == a + part + b;
    forall i | 0 <= i < |padded| ensures padded[i] != '/' {
      BlanksAreSpaces('/');
      assert padded[i] == if i < |a| then a[i] else if i < |a| + |part| then part[i - |a|] else b[i - |a| - |part|];
    }
  }

  /** A joined text splits into its parts. */
  lemma {:induction false} JoinedComesApart(parts: seq<string>)
    requires parts != [] && forall i :: 0 <= i < |parts| ==> Lacks(parts[i], '/')
    ensures Split(Joined(parts), '/') == parts
    decreases |parts|
  {
    if |parts| == 1 {
      LackingHasNot(parts[0], '/');
    } else {
      var rest := Joined(parts[1..]);
      IndexAfterLacking(parts[0], '/', rest);
      assert Joined(parts) == parts[0] + ['/'] + rest;
      JoinedComesApart(parts[1..]);
      assert parts == [parts[0]] + parts[1..];
    }
  }

  ghost predicate PadsAll(padded: seq<string>, parts: seq<string>) {
    |padded| == |parts| && forall i :: 0 <= i < |parts| ==> Pads(padded[i], parts[i]) && Lacks(parts[i], '/')
  }

  lemma {:induction false} PaddedTells(padded: seq<string>, parts: seq<string>)
    requires PadsAll(padded, parts)
    ensures Telling(padded) == Telling(parts)
    decreases |parts|
  {
    if parts != [] {
      PaddedStrips(padded[0], parts[0]);
      PaddedTells(padded[1..], parts[1..]);
    }
  }

  /** Spaces, tabs and line ends around the parts of a text change nothing of what it parses to. */
  lemma PaddingIsIgnored(padded: seq<string>, parts: seq<string>)
    requires parts != [] && PadsAll(padded, parts)
    ensures Parsed(Text(Joined(padded))) == Parsed(Text(Joined(parts)))
  {
    forall i | 0 <= i < |parts| ensures Lacks(padded[i], '/') {
      PaddedLacks(padded[i], parts[i]);
    }
    JoinedComesApart(padded);
    JoinedComesApart(parts);
    PaddedTells(padded, parts);
  }

  predicate Holds(s: string, c: char) {
    exists i :: 0 <= i < |s| && s[i] == c
  }

  lemma HasExactly(s: string, c: char)
    ensures Has(s, c) <==> Holds(s, c)
  {
    assert Has(s, c) ==> s[IndexOf(s, c)] == c;
  }

  /** A text of plain parts parses exactly when it has at least two, the first two of them dotted. */
  lemma TextParsesExactly(parts: seq<string>)
    requires parts != [] && AllPlain(parts)
    ensures Parsed(Text(Joined(parts))).Some? <==> |parts| >= 2 && Holds(parts[0], '.') && Holds(parts[1], '.')
  {
    JoinedSplits(parts);
    HasExactly(parts[0], '.');
    if |parts| >= 2 {
      HasExactly(parts[1], '.');
    }
  }

  /** Structured fields parse exactly when both ids are given and dotted, the call names a domain and
      a service, and the extra data is no mistake; extra data may override the entity. */
  lemma FieldsParseExactly(entity: string, domain: string, service: string, data: Extra)
    requires Plain(entity) && CallIsClean(domain, service)
    ensures var call, own := domain + "." + service, map[ENTITY_ID := entity];
            && Parsed(Fields(Some(entity), Some(call), data)) ==
               (if Holds(entity, '.') && domain != "" && service != "" && !data.NotAMapping? then
                  Some(ServiceAction(domain, service, if data.Mapping? then own + data.items else own))
                else None)
            && Parsed(Fields(None, Some(call), data)) == None && Parsed(Fields(Some(entity), None, data)) == None
  {
    CallSplits(domain, service, domain + "." + service);
    HasExactly(entity, '.');
  }

  lemma AttributeParses(data: map<string, string>, a: Attribute)
    requires PlainAttribute(a)
    ensures WithAttribute(data, AttributeText(a)) == data[a.key := a.value]
  {
    IndexAfterLacking(a.key, ':', a.value);
    assert AttributeText(a) == a.key + [':'] + a.value;
  }

  lemma OneMoreAttribute(data: map<string, string>, parts: seq<string>, part: string)
    ensures WithAttributes(data, parts + [part]) == WithAttribute(WithAttributes(data, parts), part)
  {
    assert (parts + [part])[..|parts|] == parts;
  }

  lemma {:induction false} AttributesParse(entity: string, attributes: seq<Attribute>)
    requires forall i :: 0 <= i < |attributes| ==> PlainAttribute(attributes[i])
    ensures WithAttributes(map[ENTITY_ID := entity], AttributeTexts(attributes)) == DataOf(entity, attributes)
    decreases |attributes|
  {
    if attributes != [] {
      var rest, last := attributes[..|attributes| - 1], attributes[|attributes| - 1];
      AttributesParse(entity, rest);
      AttributeParses(DataOf(entity, rest), last);
      OneMoreAttribute(map[ENTITY_ID := entity], AttributeTexts(rest), AttributeText(last));
    }
  }

  lemma {:induction false} AttributeTextsArePlain(attributes: seq<Attribute>)
    requires forall i :: 0 <= i < |attributes| ==> PlainAttribute(attributes[i])
    ensures AllPlain(AttributeTexts(attributes))
    decreases |attributes|
  {
    if attributes != [] {
      AttributeTextsArePlain(attributes[..|attributes| - 1]);
    }
  }

  /** Every action whose parts the text form can carry is parsed from its text: entity, domain,
      service, and each attribute in turn, a later one overriding an earlier one. */
  lemma LegacyTextParses(entity: string, domain: string, service: string, attributes: seq<Attribute>)
    requires Plain(entity) && Has(entity, '.') && Plain(domain) && Lacks(domain, '.') && Plain(service)
    requires forall i :: 0 <= i < |attributes| ==> PlainAttribute(attributes[i])
    ensures Parsed(Text(Joined([entity, domain + "." + service] + AttributeTexts(attributes)))) ==
            Some(ServiceAction(domain, service, DataOf(entity, attributes)))
  {
    var call, texts := domain + "." + service, AttributeTexts(attributes);
    var parts := [entity, call] + texts;
    CallSplits(domain, service, call);
    AttributeTextsArePlain(attributes);
    assert Plain(call) by {
      assert call == domain + ['.'] + service;
      assert Stripped(call);
    }
    assert AllPlain(parts);
    JoinedSplits(parts);
    assert parts[2..] == texts;
    AttributesParse(entity, attributes);
  }

  // ----- What does not survive -----

  /** Two plain parts, the second a call, parse to that call on the first. */
  lemma TwoPartsParse(entity: string, call: string)
    requires Plain(entity) && Has(entity, '.') && Plain(call) && Has(call, '.')
    ensures Parsed(Text(entity + "/" + call)) ==
            Some(ServiceAction(Strip(Before(call, '.')), Strip(After(call, '.')), map[ENTITY_ID := entity]))
  {
    var parts := [entity, call];
    JoinedSplits(parts);
    assert parts[1..] == [call];
    assert Joined(parts) == entity + "/" + call;
    assert parts[2..] == [];
  }

  /** The text parses to `a`, and what the editor makes of it parses to nothing. */
  predicate LostAs(text: string, a: ServiceAction) {
    && Parsed(Text(text)) == Some(a)
    && ServiceActionFields(Text(text)).Some? && Parsed(ServiceActionFields(Text(text)).value) == None
  }

  /** A call without a domain parses from the text, but its structured form does not. */
  lemma BlankDomainIsLost(entity: string, service: string, call: string)
    requires Plain(entity) && Has(entity, '.') && Plain(service) && call == "." + service
    ensures LostAs(entity + "/" + call, ServiceAction("", service, map[ENTITY_ID := entity]))
  {
    assert call == "" + "." + service;
    CallSplits("", service, call);
    assert call == ['.'] + service;
    TwoPartsParse(entity, call);
    FieldsParseBack(ServiceAction("", service, map[ENTITY_ID := entity]), entity);
  }

  lemma EntityIdIsPlain()
    ensures Plain(ENTITY_ID) && Lacks(ENTITY_ID, ':')
  {
    assert !IsSpace('e') && !IsSpace('d');
  }

  /** An attribute may rename the entity to something without a domain: the action parses with
      it, its structured form does not. */
  lemma RenamedEntityIsLost(entity: string, domain: string, service: string, name: string)
    requires Plain(entity) && Has(entity, '.') && Plain(domain) && Lacks(domain, '.') && Plain(service)
    requires Plain(name) && Lacks(name, '.')
    ensures LostAs(Joined([entity, domain + "." + service] + [ENTITY_ID + ":" + name]),
                   ServiceAction(domain, service, map[ENTITY_ID := name]))
  {
    var attributes := [Attribute(ENTITY_ID, name)];
    EntityIdIsPlain();
    assert attributes[..0] == [];
    assert AttributeTexts(attributes) == [] + [ENTITY_ID + ":" + name] == [ENTITY_ID + ":" + name];
    LegacyTextParses(entity, domain, service, attributes);
    assert DataOf(entity, attributes) == map[ENTITY_ID := name];
    LackingHasNot(name, '.');
    FieldsParseBack(ServiceAction(domain, service, map[ENTITY_ID := name]), name);
  }

  lemma BlankTextReads(entity: string, service: string, text: string)
    requires entity == "switch.boiler" && service == "turn_on" && text == "switch.boiler/.turn_on"
    ensures Plain(entity) && entity[6] == '.' && Plain(service) && text == entity + "/" + ("." + service)
  {
  }

  lemma HasAt(s: string, c: char, i: nat)
    requires i < |s| && s[i] == c
    ensures Has(s, c)
  {
  }

  lemma BlankTextLost(entity: string, service: string, text: string)
    requires entity == "switch.boiler" && service == "turn_on" && text == "switch.boiler/.turn_on"
    ensures LostAs(text, ServiceAction("", service, map[ENTITY_ID := entity]))
  {
    BlankTextReads(entity, service, text);
    HasAt(entity, '.', 6);
    BlankDomainIsLost(entity, service, "." + service);
  }

  /** A stored text without a domain parses and is lost by the editor. */
  lemma BlankTextIsLost()
    ensures LostAs("switch.boiler/.turn_on", ServiceAction("", "turn_on", map[ENTITY_ID := "switch.boiler"]))
  {
    BlankTextLost("switch.boiler", "turn_on", "switch.boiler/.turn_on");
  }

  lemma JoinOfThree(a: string, b: string, c: string)
    ensures Joined([a, b] + [c]) == a + "/" + (b + "/" + c)
  {
    var parts := [a, b] + [c];
    assert parts[1..] == [b, c] && [b, c][1..] == [c];
    assert Joined([b, c]) == b + "/" + c;
  }

  lemma RenamedTextReads(entity: string, domain: string, service: string, name: string)
    requires entity == "switch.boiler" && domain == "switch" && service == "turn_on" && name == "boiler"
    ensures Plain(entity) && entity[6] == '.' && Plain(domain) && Lacks(domain, '.') && Plain(service)
    ensures Plain(name) && Lacks(name, '.')
  {
  }

  lemma RenamedTextIsJoined(entity: string, domain: string, service: string, name: string, text: string)
    requires entity == "switch.boiler" && domain == "switch" && service == "turn_on" && name == "boiler"
    requires text == "switch.boiler/switch.turn_on/entity_id:boiler"
    ensures text == entity + "/" + (domain + "." + service + "/" + (ENTITY_ID + ":" + name))
  {
  }

  lemma RenamedTextLost(entity: string, domain: string, service: string, name: string, text: string)
    requires entity == "switch.boiler" && domain == "switch" && service == "turn_on" && name == "boiler"
    requires text == "switch.boiler/switch.turn_on/entity_id:boiler"
    ensures LostAs(text, ServiceAction(domain, service, map[ENTITY_ID := name]))
  {
    RenamedTextReads(entity, domain, service, name);
    HasAt(entity, '.', 6);
    RenamedEntityIsLost(entity, domain, service, name);
    JoinOfThree(entity, domain + "." + service, ENTITY_ID + ":" + name);
    RenamedTextIsJoined(entity, domain, service, name, text);
  }

  /** A stored text whose attribute renames the entity parses and is lost by the editor. */
  lemma RenamedTextIsLost()
    ensures LostAs("switch.boiler/switch.turn_on/entity_id:boiler",
                   ServiceAction("switch", "turn_on", map[ENTITY_ID := "boiler"]))
  {
    RenamedTextLost("switch.boiler", "switch", "turn_on", "boiler", "switch.boiler/switch.turn_on/entity_id:boiler");
  }
}
