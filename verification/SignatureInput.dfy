/** The Signature-Input printer and its strict parser: pkg/ags1/httpmsig/signature_input.go
    (sections 4.1 and 2.3 of RFC 9421). */
module SignatureInput {
  import opened Decimal
  import opened Text
  import opened Profile

  datatype Input = Input(name: string, components: seq<string>, strict: set<string>, params: Params)

  // ---------------------------------------------------------------- the printer

  /** One covered component as the inner list shows it. */
  function Shown(g: Glyphs, c: string): string {
    if RequiresStrict(c) then Quote(g, c) + ";sf" else Quote(g, c)
  }

  function ShownAll(g: Glyphs, cs: seq<string>): (r: seq<string>)
    ensures |r| == |cs|
  {
    seq(|cs|, i requires 0 <= i < |cs| => Shown(g, cs[i]))
  }

  /** "(...);created=...;keyid=...;nonce=...;tag=...", shared with the signature base. */
  function ParamText(g: Glyphs, cs: seq<string>, p: Params): string {
    "(" + Join(ShownAll(g, cs), " ") + ")" + Settings(g, p)
  }

  function Settings(g: Glyphs, p: Params): string {
    ";created=" + PrintInt(p.created) + ";keyid=" + Quote(g, p.keyID) + ";nonce=" + Quote(g, p.nonce) + ";tag="
    + Quote(g, p.tag)
  }

  /** BuildSignatureInput. */
  function Build(g: Glyphs, name: string, cs: seq<string>, p: Params): string {
    (if TrimSpace(name) == "" then DEFAULT_LABEL else name) + "="
    + ParamText(g, cs, if p.tag == "" then p.(tag := SIGNATURE_TAG) else p)
  }

  /** BuildSignatureInput as it runs: the component list is built one item at a time. */
  method BuildSignatureInput(g: Glyphs, name: string, cs: seq<string>, params: Params) returns (r: string)
    ensures r == Build(g, name, cs, params)
  {
    hide Quote;
    hide PrintInt;
    hide TrimSpace;
    hide Join;
    var sigName, p := name, params;
    if TrimSpace(name) == "" {
      sigName := DEFAULT_LABEL;
    }
    if p.tag == "" {
      p := p.(tag := SIGNATURE_TAG);
    }
    var quoted: seq<string> := [];
    for i := 0 to |cs|
      invariant quoted == ShownAll(g, cs)[..i]
    {
      if RequiresStrict(cs[i]) {
        quoted := quoted + [Quote(g, cs[i]) + ";sf"];
      } else {
        quoted := quoted + [Quote(g, cs[i])];
      }
    }
    r := sigName + "=(" + Join(quoted, " ") + ")" + Settings(g, p);
    assert quoted == ShownAll(g, cs);
    assert r == sigName + "=" + ParamText(g, cs, p);
  }

  // ---------------------------------------------------------------- the parser

  function Unquote(v: string): string {
    if |v| >= 2 && v[0] == '"' && v[|v| - 1] == '"' then v[1..|v| - 1] else v
  }

  /** splitLabel. */
  function SplitLabel(v: string): (r: Outcome<(string, string)>)
    ensures r.Ok? ==> LegalLabel(r.value.0)
  {
    var i := IndexOf(v, '=');
    if i <= 0 then Err(Malformed)
    else
      var name := TrimSpace(v[..i]);
      if LegalLabel(name) then Ok((name, TrimSpace(v[i + 1..]))) else Err(Malformed)
  }

  /** splitInnerList. */
  function SplitInnerList(v: string): Outcome<(string, string)> {
    var close := IndexOf(v, ')');
    if !HasPrefix(v, "(") || close < 0 then Err(Malformed)
    else Ok((v[1..close], TrimSpace(v[close + 1..])))
  }

  /** One field of the inner list: a quoted supported name, with ;sf exactly where it belongs. */
  function Component(f: string): (r: Outcome<string>)
    ensures r.Ok? ==> IsSupported(r.value)
  {
    var i := IndexOf(f, ';');
    var name := if i >= 0 then f[..i] else f;
    var param := if i >= 0 then f[i + 1..] else "";
    if !HasPrefix(name, "\"") || !HasSuffix(name, "\"") || |name| < 3 then Err(Malformed)
    else
      var id := name[1..|name| - 1];
      if !IsSupported(id) then Err(UnsupportedComponent)
      else if param == "" && RequiresStrict(id) then Err(MissingStrict)
      else if param == "sf" && !RequiresStrict(id) then Err(Malformed)
      else if param != "" && param != "sf" then Err(Malformed)
      else Ok(id)
  }

  function ComponentsOf(fields: seq<string>): (r: Outcome<seq<string>>)
    ensures r.Ok? ==> |r.value| == |fields| && forall i :: 0 <= i < |fields| ==> IsSupported(r.value[i])
  {
    if fields == [] then Ok([])
    else
      match ComponentsOf(fields[..|fields| - 1])
      case Err(e) => Err(e)
      case Ok(cs) =>
        match Component(fields[|fields| - 1])
        case Err(e) => Err(e)
        case Ok(c) => Ok(cs + [c])
  }

  function StrictOf(cs: seq<string>): set<string> {
    set c | c in cs && RequiresStrict(c)
  }

  /** parseComponents. */
  method ParseComponents(inner: string) returns (r: Outcome<(seq<string>, set<string>)>)
    ensures var cs := ComponentsOf(Fields(inner));
            r == if Fields(inner) == [] then Err(Malformed)
                 else if cs.Ok? then Ok((cs.value, StrictOf(cs.value))) else Err(cs.fault)
  {
    hide Fields;
    hide Component;
    hide IsSupported;
    var fields := Fields(inner);
    if |fields| == 0 {
      return Err(Malformed);
    }
    var components: seq<string> := [];
    var strict: set<string> := {};
    for i := 0 to |fields|
      invariant ComponentsOf(fields[..i]) == Ok(components)
      invariant strict == StrictOf(components)
    {
      assert fields[..i + 1][..i] == fields[..i];
      var one := Component(fields[i]);
      if one.Err? {
        FaultStays(fields, i + 1);
        return Err(one.fault);
      }
      if RequiresStrict(one.value) {
        strict := strict + {one.value};
      }
      components := components + [one.value];
    }
    assert fields[..|fields|] == fields;
    return Ok((components, strict));
  }

  lemma {:induction false} FaultStays(fields: seq<string>, n: nat)
    requires n <= |fields| && ComponentsOf(fields[..n]).Err?
    ensures ComponentsOf(fields) == ComponentsOf(fields[..n])
    decreases |fields|
  {
    if n == |fields| {
      assert fields[..n] == fields;
    } else {
      var front := fields[..|fields| - 1];
      assert front[..n] == fields[..n];
      FaultStays(front, n);
    }
  }

  /** splitParams: cut at every ';' that is not inside quotes, dropping blank pieces. */
  function Pieces(v: string, current: string, inQuote: bool): seq<string> {
    if v == "" then Piece(current)
    else if v[0] == '"' then Pieces(v[1..], current + [v[0]], !inQuote)
    else if v[0] == ';' && !inQuote then Piece(current) + Pieces(v[1..], "", inQuote)
    else Pieces(v[1..], current + [v[0]], inQuote)
  }

  function Piece(current: string): seq<string> {
    var s := TrimSpace(current);
    if s == "" then [] else [s]
  }

  method SplitParams(v: string) returns (parts: seq<string>)
    ensures parts == Pieces(v, "", false)
  {
    parts := [];
    var current, inQuote := "", false;
    for i := 0 to |v|
      invariant parts + Pieces(v[i..], current, inQuote) == Pieces(v, "", false)
    {
      var r := v[i];
      assert v[i..][0] == r && v[i..][1..] == v[i + 1..];
      if r == '"' {
        inQuote := !inQuote;
        current := current + [r];
      } else if r == ';' && !inQuote {
        var s := TrimSpace(current);
        assert parts + (Piece(current) + Pieces(v[i + 1..], "", inQuote))
            == parts + Piece(current) + Pieces(v[i + 1..], "", inQuote);
        if s != "" {
          parts := parts + [s];
        }
        current := "";
      } else {
        current := current + [r];
      }
    }
    var s := TrimSpace(current);
    assert v[|v|..] == "";
    if s != "" {
      parts := parts + [s];
    }
  }

  /** One key=value piece applied to what has been read so far. */
  function Setting(part: string, seen: set<string>, out: Params): Outcome<(set<string>, Params)> {
    var eq := IndexOf(part, '=');
    if eq < 0 then Err(Malformed)
    else
      var key, raw := TrimSpace(part[..eq]), TrimSpace(part[eq + 1..]);
      if key in seen then Err(DuplicateParameter)
      else if key == "created" then
        (match Atoi(raw)
         case None => Err(Malformed)
         case Some(n) => Ok((seen + {key}, out.(created := n))))
      else if key == "keyid" then Ok((seen + {key}, out.(keyID := Unquote(raw))))
      else if key == "nonce" then Ok((seen + {key}, out.(nonce := Unquote(raw))))
      else if key == "tag" then Ok((seen + {key}, out.(tag := Unquote(raw))))
      else if key == "alg" then Err(AlgorithmOnTheWire)
      else Err(ForbiddenParameter)
  }

  function SettingsFrom(parts: seq<string>, seen: set<string>, out: Params): Outcome<(set<string>, Params)> {
    if parts == [] then Ok((seen, out))
    else
      match Setting(parts[0], seen, out)
      case Err(e) => Err(e)
      case Ok((seen', out')) => SettingsFrom(parts[1..], seen', out')
  }

  const NOTHING := Params(0, "", "", "")

  /** parseParams' last checks. */
  function Complete(seen: set<string>, out: Params): Outcome<Params> {
    if "created" !in seen then Err(MissingCreated)
    else if "keyid" !in seen || out.keyID == "" then Err(MissingKeyID)
    else if "nonce" !in seen || out.nonce == "" then Err(MissingNonce)
    else if "tag" !in seen || out.tag == "" then Err(MissingTag)
    else Ok(out)
  }

  function ParamsOf(v: string): Outcome<Params> {
    if v == "" then Err(Malformed)
    else
      match SettingsFrom(Pieces(v, "", false), {}, NOTHING)
      case Err(e) => Err(e)
      case Ok((seen, out)) => Complete(seen, out)
  }

  /** parseParams. */
  method ParseParams(v: string) returns (r: Outcome<Params>)
    ensures r == ParamsOf(v)
  {
    hide Pieces;
    if v == "" {
      return Err(Malformed);
    }
    var out := NOTHING;
    var seen: set<string> := {};
    var parts := SplitParams(v);
    for i := 0 to |parts|
      invariant SettingsFrom(parts, {}, NOTHING) == SettingsFrom(parts[i..], seen, out)
    {
      assert parts[i..][0] == parts[i] && parts[i..][1..] == parts[i + 1..];
      var one := Setting(parts[i], seen, out);
      if one.Err? {
        return Err(one.fault);
      }
      seen, out := one.value.0, one.value.1;
    }
    assert parts[|parts|..] == [];
    if "created" !in seen {
      return Err(MissingCreated);
    }
    if "keyid" !in seen || out.keyID == "" {
      return Err(MissingKeyID);
    }
    if "nonce" !in seen || out.nonce == "" {
      return Err(MissingNonce);
    }
    if "tag" !in seen || out.tag == "" {
      return Err(MissingTag);
    }
    return Ok(out);
  }

  function ComponentsIn(inner: string): Outcome<seq<string>> {
    if Fields(inner) == [] then Err(Malformed) else ComponentsOf(Fields(inner))
  }

  /** What ParseSignatureInput makes of its parts, and the profile checks after them. */
  function Assemble(name: string, cs: Outcome<seq<string>>, p: Outcome<Params>): Outcome<Input> {
    if cs.Err? then Err(cs.fault)
    else if p.Err? then Err(p.fault)
    else if p.value.tag != SIGNATURE_TAG then Err(InvalidTag)
    else if !ValidNonce(p.value.nonce) then Err(InvalidNonce)
    else Ok(Input(name, cs.value, StrictOf(cs.value), p.value))
  }

  function Parse(header: string): Outcome<Input> {
    var value := TrimSpace(header);
    if value == "" then Err(Malformed)
    else
      match SplitLabel(value)
      case Err(e) => Err(e)
      case Ok((name, rest)) =>
        match SplitInnerList(rest)
        case Err(e) => Err(e)
        case Ok((inner, settings)) => Assemble(name, ComponentsIn(inner), ParamsOf(settings))
  }

  /** ParseSignatureInput. */
  method ParseSignatureInput(header: string) returns (r: Outcome<Input>)
    ensures r == Parse(header)
  {
    hide Fields;
    hide ComponentsOf;
    hide ParamsOf;
    hide SplitLabel;
    hide SplitInnerList;
    hide TrimSpace;
    hide ValidNonce;
    var value := TrimSpace(header);
    if value == "" {
      return Err(Malformed);
    }
    var split := SplitLabel(value);
    if split.Err? {
      return Err(split.fault);
    }
    var parts := SplitInnerList(split.value.1);
    if parts.Err? {
      return Err(parts.fault);
    }
    var cs := ParseComponents(parts.value.0);
    if cs.Err? {
      return Err(cs.fault);
    }
    var p := ParseParams(parts.value.1);
    if p.Err? {
      return Err(p.fault);
    }
    if p.value.tag != SIGNATURE_TAG {
      return Err(InvalidTag);
    }
    if !ValidNonce(p.value.nonce) {
      return Err(InvalidNonce);
    }
    return Ok(Input(split.value.0, cs.value.0, cs.value.1, p.value));
  }

  /** What no accepted header lacks: the parser is closed over the profile. */
  ghost predicate Legal(name: string, cs: seq<string>, p: Params) {
    && LegalLabel(name) && cs != [] && (forall i :: 0 <= i < |cs| ==> IsSupported(cs[i]))
    && p.keyID != "" && ValidNonce(p.nonce) && p.tag == SIGNATURE_TAG
  }

  lemma ParseIsClosed(header: string)
    requires Parse(header).Ok?
    ensures var i := Parse(header).value;
            Legal(i.name, i.components, i.params) && i.strict == StrictOf(i.components)
  {
    hide Fields;
    hide IsSupported;
    hide Pieces;
    hide TrimSpace;
    hide Setting;
  }
}
