/**
  Attribute names across the HTML parser, which lower-cases them (`design/Q-Agent app design/support.js`,
  `encodeCase`, `kebabToCamel` and the names that `collectProps` computes).
 */
module AttrCodec {
  import opened Strings

  const CAMEL_ATTR := "sc-camel-"

  const EVENT_MAP: map<string, string> := map[
    "onclick" := "onClick",
    "onchange" := "onChange",
    "oninput" := "onInput",
    "onsubmit" := "onSubmit",
    "onkeydown" := "onKeyDown",
    "onkeyup" := "onKeyUp",
    "onkeypress" := "onKeyPress",
    "onmousedown" := "onMouseDown",
    "onmouseup" := "onMouseUp",
    "onmouseenter" := "onMouseEnter",
    "onmouseleave" := "onMouseLeave",
    "onfocus" := "onFocus",
    "onblur" := "onBlur",
    "ondoubleclick" := "onDoubleClick",
    "oncontextmenu" := "onContextMenu"]

  function Lower(c: char): char {
    if IsUpper(c) then c + ('a' - 'A') else c
  }

  function Upper(c: char): char {
    if IsLower(c) then c - ('a' - 'A') else c
  }

  /** What the HTML parser makes of an attribute name. */
  function Lowered(s: string): (r: string)
    ensures |r| == |s|
  {
    seq(|s|, i requires 0 <= i < |s| => Lower(s[i]))
  }

  predicate IsAlnum(c: char) {
    IsLower(c) || IsUpper(c) || IsDigit(c)
  }

  /** `[a-z]+[A-Z][A-Za-z0-9]*`. */
  predicate CamelName(s: string) {
    && (forall c <- s :: IsAlnum(c))
    && exists k :: 0 < k < |s| && IsUpper(s[k]) && forall i :: 0 <= i < k ==> IsLower(s[i])
  }

  /** `name.replace(/[A-Z]/g, (c) => "-" + c.toLowerCase())`. */
  function Dashed(s: string): string {
    if s == "" then ""
    else (if IsUpper(s[0]) then ['-', Lower(s[0])] else [s[0]]) + Dashed(s[1..])
  }

  function EncodeName(s: string): string {
    CAMEL_ATTR + Dashed(s)
  }

  /** `s.replace(/-([a-z])/g, (_, c) => c.toUpperCase())`. */
  function KebabToCamel(s: string): string {
    if s == "" then ""
    else if |s| >= 2 && s[0] == '-' && IsLower(s[1]) then [Upper(s[1])] + KebabToCamel(s[2..])
    else [s[0]] + KebabToCamel(s[1..])
  }

  datatype Kind = Dom | DcImport | XImport

  /** What `collectProps` makes of an attribute; it throws on an element's attribute named exactly `on`. */
  datatype Prop = Skipped | HintSize | PseudoClass(state: string) | Key(key: string) | Throws

  predicate StartsWith(s: string, prefix: string) {
    prefix <= s
  }

  function DecodedName(name: string): string {
    if StartsWith(name, CAMEL_ATTR) then KebabToCamel(name[|CAMEL_ATTR|..]) else name
  }

  function ComponentKey(kind: Kind, key: string): string {
    if '-' in key && !(kind == XImport && (StartsWith(key, "aria-") || StartsWith(key, "data-"))) then KebabToCamel(key)
    else key
  }

  function EventKey(key: string): Prop {
    if key in EVENT_MAP then Key(EVENT_MAP[key])
    else if |key| < 3 then Throws
    else Key("on" + [Upper(key[2])] + key[3..])
  }

  function ElementKey(key: string): Prop {
    if key == "class" then Key("className")
    else if key == "for" then Key("htmlFor")
    else if StartsWith(key, "on") then EventKey(key)
    else Key(key)
  }

  function PropOf(kind: Kind, name: string): Prop {
    if name == "sc-name" || name == "data-dc-tpl" then Skipped
    else
      var key := DecodedName(name);
      if key == "hint-size" then HintSize
      else if StartsWith(key, "style-") then PseudoClass(key[6..])
      else if kind == Dom then ElementKey(key)
      else Key(ComponentKey(kind, key))
  }

  // ---------------------------------------------------------------------------
  // The round trip
  // ---------------------------------------------------------------------------

  lemma {:induction false} DashedLower(s: string)
    requires forall c <- s :: IsAlnum(c)
    ensures forall c <- Dashed(s) :: Lower(c) == c
  {
    if s != "" { DashedLower(s[1..]); }
  }

  lemma {:induction false} DashedBack(s: string)
    requires forall c <- s :: IsAlnum(c)
    ensures KebabToCamel(Dashed(s)) == s
  {
    if s != "" {
      DashedBack(s[1..]);
      var d := Dashed(s);
      assert IsAlnum(s[0]) && s == [s[0]] + s[1..];
      if IsUpper(s[0]) {
        assert d[0] == '-' && d[1] == Lower(s[0]) && d[2..] == Dashed(s[1..]);
        assert IsLower(d[1]) && Upper(d[1]) == s[0];
      } else {
        assert d[0] == s[0] && d[1..] == Dashed(s[1..]);
      }
    }
  }

  lemma CamelAttrLower()
    ensures forall c <- CAMEL_ATTR :: Lower(c) == c
  {
  }

  /** The encoded name passes the parser unchanged and decodes to the name that was written. */
  lemma EncodedNameSurvives(name: string)
    requires CamelName(name)
    ensures Lowered(EncodeName(name)) == EncodeName(name)
    ensures DecodedName(Lowered(EncodeName(name))) == name
  {
    hide CAMEL_ATTR, IsAlnum, Lower, KebabToCamel;
    CamelAttrLower();
    DashedLower(name);
    DashedBack(name);
    var e := EncodeName(name);
    forall i | 0 <= i < |e|
      ensures Lower(e[i]) == e[i]
    {
      assert e[i] in CAMEL_ATTR || e[i] in Dashed(name);
    }
    assert Lowered(e) == e;
    assert e[|CAMEL_ATTR|..] == Dashed(name);
  }

  /** A name with a capital letter and no dash is none of the names with a meaning of their own. */
  lemma CamelIsPlain(name: string)
    requires CamelName(name)
    ensures '-' !in name && name != "class" && name != "for" && name != "hint-size"
    ensures !StartsWith(name, "style-") && name !in EVENT_MAP
    ensures StartsWith(name, "on") ==> |name| >= 3
  {
    var k :| 0 < k < |name| && IsUpper(name[k]);
    assert name[k] in name;
    EventsLower(name);
    LiteralsLower();
    StyleHasDash(name);
    assert StartsWith(name, "on") ==> IsLower("on"[0]) && IsLower("on"[1]) && name[0] == "on"[0] && name[1] == "on"[1];
  }

  lemma StyleHasDash(name: string)
    ensures StartsWith(name, "style-") ==> '-' in name
  {
    assert "style-"[5] == '-';
  }

  lemma LiteralsLower()
    ensures forall c <- "class" :: !IsUpper(c)
    ensures forall c <- "for" :: !IsUpper(c)
    ensures '-' in "hint-size"
  {
    assert "hint-size"[4] == '-';
  }

  lemma EventsLower(name: string)
    ensures name in EVENT_MAP ==> forall c <- name :: !IsUpper(c)
  {
  }

  /** A camel-case attribute of a component arrives under the name that was written. */
  lemma ComponentAttrKept(kind: Kind, name: string)
    requires CamelName(name) && kind != Dom
    ensures PropOf(kind, Lowered(EncodeName(name))) == Key(name)
  {
    hide CamelName, Lowered, KebabToCamel;
    EncodedNameSurvives(name);
    CamelIsPlain(name);
    EncodedIsNotSkipped(name);
  }

  lemma EncodedIsNotSkipped(name: string)
    ensures EncodeName(name) != "sc-name" && EncodeName(name) != "data-dc-tpl"
  {
    assert EncodeName(name)[3] == CAMEL_ATTR[3] == 'c';
    assert "sc-name"[3] == 'n' && "data-dc-tpl"[3] == 'a';
  }

  /**
    One of an element arrives under the name that was written, except when it starts with `on` and goes on
    with a small letter: that letter is made a capital one.
   */
  lemma ElementAttrKeptExactly(name: string)
    requires CamelName(name)
    ensures PropOf(Dom, Lowered(EncodeName(name))) == Key(name) <==> !(StartsWith(name, "on") && IsLower(name[2]))
  {
    hide CamelName, Lowered, KebabToCamel, EVENT_MAP;
    EncodedNameSurvives(name);
    CamelIsPlain(name);
    EncodedIsNotSkipped(name);
    if StartsWith(name, "on") {
      assert name == "on" + [name[2]] + name[3..];
      assert ("on" + [Upper(name[2])] + name[3..])[2] == Upper(name[2]);
    }
  }

  // ---------------------------------------------------------------------------
  // Names written in small letters
  // ---------------------------------------------------------------------------

  predicate SmallLetters(s: string) {
    forall c <- s :: IsLower(c)
  }

  lemma EventMapCapitalises(k: string)
    requires k in EVENT_MAP
    ensures |k| >= 3 && |EVENT_MAP[k]| == |k| && EVENT_MAP[k][0] == 'o' && EVENT_MAP[k][1] == 'n'
    ensures IsUpper(EVENT_MAP[k][2]) && Lowered(EVENT_MAP[k]) == k
  {
  }

  /** An event attribute becomes a property that differs from it in capitals only, and has one after `on`. */
  lemma EventAttr(name: string)
    requires SmallLetters(name) && |name| >= 3 && StartsWith(name, "on")
    ensures var p := PropOf(Dom, name);
            && p.Key? && Lowered(p.key) == name && StartsWith(p.key, "on") && IsUpper(p.key[2])
  {
    hide EVENT_MAP;
    SmallIsPlain(name);
    if name in EVENT_MAP {
      EventMapCapitalises(name);
    } else {
      var key := "on" + [Upper(name[2])] + name[3..];
      assert name[0] == "on"[0] && name[1] == "on"[1];
      assert forall i :: 0 <= i < |name| ==> name[i] in name;
      assert forall i :: 0 <= i < |name| ==> Lower(key[i]) == name[i];
      assert Lowered(key) == name;
    }
  }

  lemma SmallIsPlain(name: string)
    requires SmallLetters(name)
    ensures name != "sc-name" && name != "data-dc-tpl" && name != "hint-size" && !StartsWith(name, "style-")
    ensures !StartsWith(name, CAMEL_ATTR) && '-' !in name
  {
    LiteralsLower();
    StyleHasDash(name);
    assert '-' in "sc-name" by { assert "sc-name"[2] == '-'; }
    assert '-' in "data-dc-tpl" by { assert "data-dc-tpl"[4] == '-'; }
    CamelAttrHasDash(name);
  }

  lemma CamelAttrHasDash(name: string)
    ensures StartsWith(name, CAMEL_ATTR) ==> '-' in name
  {
    assert CAMEL_ATTR[2] == '-';
  }

  /** Every other attribute in small letters keeps its name, but for the two that are words of JavaScript. */
  lemma SmallAttr(kind: Kind, name: string)
    requires SmallLetters(name) && !StartsWith(name, "on")
    ensures PropOf(kind, name) == Key(if kind == Dom && name == "class" then "className"
                                      else if kind == Dom && name == "for" then "htmlFor"
                                      else name)
  {
    SmallIsPlain(name);
  }

  /** The names with a meaning of their own. */
  lemma ReservedNames(kind: Kind, state: string)
    ensures PropOf(kind, "sc-name") == Skipped && PropOf(kind, "data-dc-tpl") == Skipped
    ensures PropOf(kind, "hint-size") == HintSize && PropOf(kind, "style-" + state) == PseudoClass(state)
    ensures PropOf(Dom, "on") == Throws
  {
    hide KebabToCamel;
    assert "hint-size"[0] != CAMEL_ATTR[0];
    assert ("style-" + state)[1] != CAMEL_ATTR[1];
    assert ("style-" + state)[0] != "data-dc-tpl"[0] && ("style-" + state)[1] != "sc-name"[1];
    assert ("style-" + state)[0] != "hint-size"[0];
    assert ("style-" + state)[6..] == state;
    assert "on"[0] != "class"[0] && "on"[0] != "for"[0] && "on"[0] != CAMEL_ATTR[0];
    assert "on" !in EVENT_MAP;
  }

  /**
    A component's attribute in words joined by dashes arrives in camel case, except that an outside component gets
    its `aria-` and `data-` attributes as they are.
   */
  lemma DashedAttr(kind: Kind, name: string)
    requires CamelName(name) && kind != Dom
    requires var d := Dashed(name);
             && d != "sc-name" && d != "data-dc-tpl" && d != "hint-size"
             && !StartsWith(d, "style-") && !StartsWith(d, CAMEL_ATTR)
    ensures var d := Dashed(name);
            PropOf(kind, d)
            == Key(if kind == XImport && (StartsWith(d, "aria-") || StartsWith(d, "data-")) then d else name)
  {
    hide KebabToCamel;
    DashedBack(name);
    CapitalDashed(name);
  }

  lemma {:induction false} CapitalDashed(name: string)
    ensures (exists k :: 0 <= k < |name| && IsUpper(name[k])) ==> '-' in Dashed(name)
  {
    if name != "" && !IsUpper(name[0]) {
      CapitalDashed(name[1..]);
    }
  }

  /** The letters, from the first of the alphabet on: small and capital ones pair up. */
  lemma LettersPairUp(i: nat)
    requires i < 26
    ensures var small, capital := 'a' + i as char, 'A' + i as char;
            && IsLower(small) && IsUpper(capital) && Lower(capital) == small && Upper(small) == capital
            && Lower(small) == small && Upper(capital) == capital
  {
  }

  /** A camel-case name starts with small letters; a capital one follows, and then letters and digits. */
  lemma CamelNameExactly(s: string)
    ensures CamelName(s) <==> exists k :: 0 < k < |s| && SmallLetters(s[..k]) && IsUpper(s[k])
                                        && forall c <- s[k + 1..] :: IsAlnum(c)
  {
    if CamelName(s) {
      var k :| 0 < k < |s| && IsUpper(s[k]) && forall i :: 0 <= i < k ==> IsLower(s[i]);
      assert SmallLetters(s[..k]);
    }
    if k :| 0 < k < |s| && SmallLetters(s[..k]) && IsUpper(s[k]) && forall c <- s[k + 1..] :: IsAlnum(c) {
      assert s == s[..k] + [s[k]] + s[k + 1..];
      assert forall i :: 0 <= i < k ==> s[i] == s[..k][i] && s[i] in s[..k];
    }
  }
}
