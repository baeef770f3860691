/** The text format shared by every vector type, `TypeName{k1=v1, k2=v2, ...}`: the
    rendering of `toString()` and the parsing loop of `parseVector`,
    `parseQuaternion` and `parseRotation`, which differ only in the type name and
    the field names. */
module Serial {
  import opened Wrappers
  import opened Runtime
  import opened Text

  /** Field names of one type: plain text, pairwise different. */
  predicate ValidKeys(keys: seq<string>) {
    && (forall i :: 0 <= i < |keys| ==> Plain(keys[i]))
    && (forall i, j :: 0 <= i < j < |keys| ==> keys[i] != keys[j])
  }

  /** Every parsed field was present and finite. */
  predicate AllFinite(vals: seq<Num>) {
    forall i :: 0 <= i < |vals| ==> vals[i].Fin?
  }

  //
  // toString()
  //

  /** The `key=value` segments, in the type's field order. */
  function Segments(p: Platform, keys: seq<string>, vals: seq<real>): (r: seq<string>)
    requires |keys| == |vals|
    ensures |r| == |keys|
  {
    seq(|keys|, i requires 0 <= i < |keys| => keys[i] + "=" + p.formatDouble(vals[i]))
  }

  /** `TypeName{k1=v1, k2=v2, ...}` */
  function Render(p: Platform, name: string, keys: seq<string>, vals: seq<real>): string
    requires |keys| == |vals|
  {
    name + "{" + Join(Segments(p, keys, vals), ", ") + "}"
  }

  /** Rendered text starts with its type's prefix. */
  lemma RenderPrefix(p: Platform, name: string, keys: seq<string>, vals: seq<real>)
    requires |keys| == |vals|
    ensures StartsWith(Render(p, name, keys, vals), name + "{")
  {
    var rest := Join(Segments(p, keys, vals), ", ") + "}";
    assert Render(p, name, keys, vals) == (name + "{") + rest;
  }

  //
  // parse
  //

  /** The segments a parser loops over: every `TypeName{` and every `}` removed, the
      rest split on ", ". */
  function Segmentize(name: string, s: string): seq<string> {
    JavaSplit(RemoveAll(RemoveAll(s, name + "{"), "}"), ", ")
  }

  /** Where the `switch` sends a key: the index of the field of that name, if any. */
  function IndexOf(keys: seq<string>, k: string): (r: Option<nat>)
    ensures r.Some? ==> r.value < |keys| && keys[r.value] == k
    ensures r.None? ==> k !in keys
  {
    if |keys| == 0 then None
    else if keys[0] == k then Some(0)
    else match IndexOf(keys[1..], k)
      case None => None
      case Some(i) => Some(i + 1)
  }

  /** What one segment does to the values array: a NumberFormatException when it does
      not split on '=' into exactly two parts or its known key has an unparsable
      value; nothing for an unknown key; otherwise the field index and the value. */
  function Assignment(p: Platform, keys: seq<string>, seg: string): (r: Result<Option<(nat, Num)>>)
    ensures r.Err? ==> r.error == NumberFormat
    ensures |JavaSplit(seg, "=")| != 2 ==> r.Err?
    ensures |JavaSplit(seg, "=")| == 2 && JavaSplit(seg, "=")[0] !in keys ==> r == Ok(None)
    ensures r.Ok? && r.value.Some? ==> r.value.value.0 < |keys| && JavaSplit(seg, "=")[0] == keys[r.value.value.0]
    ensures |JavaSplit(seg, "=")| == 2 && JavaSplit(seg, "=")[0] in keys ==>
      && (r.Err? <==> p.parseDouble(JavaSplit(seg, "=")[1]).None?)
      && (r.Ok? ==> r.value.Some? && Some(r.value.value.1) == p.parseDouble(JavaSplit(seg, "=")[1]))
  {
    var parts := JavaSplit(seg, "=");
    if |parts| != 2 then Err(NumberFormat)
    else match IndexOf(keys, parts[0])
      case None => Ok(None)
      case Some(i) =>
        match p.parseDouble(parts[1])
        case None => Err(NumberFormat)
        case Some(v) => Ok(Some((i, v)))
  }

  /** The values array after the segments are applied in order, or the first error. */
  function Fill(p: Platform, keys: seq<string>, segs: seq<string>, vals: seq<Num>): (r: Result<seq<Num>>)
    requires |vals| == |keys|
    ensures r.Err? ==> r.error == NumberFormat
    ensures r.Ok? ==> |r.value| == |keys|
  {
    if segs == [] then Ok(vals)
    else match Assignment(p, keys, segs[0])
      case Err(e) => Err(e)
      case Ok(None) => Fill(p, keys, segs[1..], vals)
      case Ok(Some(a)) => Fill(p, keys, segs[1..], vals[a.0 := a.1])
  }

  /** One malformed segment anywhere makes the whole loop throw. */
  lemma {:induction false} FillRejectsMalformed(p: Platform, keys: seq<string>, segs: seq<string>, vals: seq<Num>, j: nat)
    requires |vals| == |keys| && j < |segs| && |JavaSplit(segs[j], "=")| != 2
    ensures Fill(p, keys, segs, vals).Err?
    decreases |segs|
  {
    if j > 0 {
      match Assignment(p, keys, segs[0])
      case Err(_) =>
      case Ok(None) =>
        assert segs[1..][j - 1] == segs[j];
        FillRejectsMalformed(p, keys, segs[1..], vals, j - 1);
      case Ok(Some(a)) =>
        assert segs[1..][j - 1] == segs[j];
        FillRejectsMalformed(p, keys, segs[1..], vals[a.0 := a.1], j - 1);
    }
  }

  /** The values array a parser starts with: NaN everywhere. */
  function Unset(n: nat): (r: seq<Num>)
    ensures |r| == n && forall i :: 0 <= i < n ==> r[i] == NaN
  {
    seq(n, _ => NaN)
  }

  /** The fields a parser reads from `s`: a NumberFormatException unless `s` starts
      with `TypeName{`, else the values left by the segment loop, with NaN for every
      field no segment names. */
  function Fields(p: Platform, name: string, keys: seq<string>, s: string): (r: Result<seq<Num>>)
    ensures !StartsWith(s, name + "{") ==> r == Err(NumberFormat)
    ensures r.Err? ==> r.error == NumberFormat
    ensures r.Ok? ==> |r.value| == |keys|
  {
    if !StartsWith(s, name + "{") then Err(NumberFormat)
    else Fill(p, keys, Segmentize(name, s), Unset(|keys|))
  }

  /** The shared body of the parsers: the prefix check, the `replaceAll`/`split`
      pipeline, and the loop that fills a NaN-initialised array in place, stopping
      at the first malformed segment. */
  method ParseFields(p: Platform, name: string, keys: seq<string>, s: string) returns (r: Result<seq<Num>>)
    ensures r == Fields(p, name, keys, s)
  {
    if !StartsWith(s, name + "{") {
      return Err(NumberFormat);
    }
    var strings := Segmentize(name, s);
    var values := new Num[|keys|](_ => NaN);
    assert values[..] == Unset(|keys|);
    var i := 0;
    while i < |strings|
      invariant 0 <= i <= |strings|
      invariant Fill(p, keys, strings[i..], values[..]) == Fill(p, keys, strings, Unset(|keys|))
    {
      var a := Assignment(p, keys, strings[i]);
      assert strings[i..][1..] == strings[i + 1..];
      if a.Err? {
        return Err(a.error);
      }
      match a.value {
        case Some((k, v)) => values[k] := v;
        case None =>
      }
      i := i + 1;
    }
    return Ok(values[..]);
  }

  //
  // Which segment a field's value comes from
  //

  /** The value the LAST segment naming field `i` assigns, or `d` when no segment
      names it. */
  function LastAssigned(p: Platform, keys: seq<string>, segs: seq<string>, i: nat, d: Num): Num
    decreases |segs|
  {
    if segs == [] then d
    else
      var a := Assignment(p, keys, segs[|segs| - 1]);
      if a.Ok? && a.value.Some? && a.value.value.0 == i then a.value.value.1
      else LastAssigned(p, keys, segs[..|segs| - 1], i, d)
  }

  lemma {:induction false} LastAssignedPrepend(p: Platform, keys: seq<string>, s: string, segs: seq<string>, i: nat, d: Num)
    ensures
      var a := Assignment(p, keys, s);
      var d' := if a.Ok? && a.value.Some? && a.value.value.0 == i then a.value.value.1 else d;
      LastAssigned(p, keys, [s] + segs, i, d) == LastAssigned(p, keys, segs, i, d')
    decreases |segs|
  {
    if segs != [] {
      assert ([s] + segs)[..|[s] + segs| - 1] == [s] + segs[..|segs| - 1];
      LastAssignedPrepend(p, keys, s, segs[..|segs| - 1], i, d);
    } else {
      assert ([s] + segs)[..0] == [];
    }
  }

  /** A later segment for a key overwrites an earlier one, and unknown keys are
      ignored: each field ends up with the value of the last segment naming it, or
      keeps its initial value. */
  lemma {:induction false} FillLastWins(p: Platform, keys: seq<string>, segs: seq<string>, vals: seq<Num>, i: nat)
    requires |vals| == |keys| && i < |keys|
    requires Fill(p, keys, segs, vals).Ok?
    ensures Fill(p, keys, segs, vals).value[i] == LastAssigned(p, keys, segs, i, vals[i])
    decreases |segs|
  {
    if segs != [] {
      var a := Assignment(p, keys, segs[0]);
      assert segs == [segs[0]] + segs[1..];
      LastAssignedPrepend(p, keys, segs[0], segs[1..], i, vals[i]);
      match a.value {
        case None => FillLastWins(p, keys, segs[1..], vals, i);
        case Some(x) => FillLastWins(p, keys, segs[1..], vals[x.0 := x.1], i);
      }
    }
  }

  /** Whether a segment is a well-formed `key=value` for the given key. */
  predicate Names(seg: string, key: string) {
    var parts := JavaSplit(seg, "=");
    |parts| == 2 && parts[0] == key
  }

  /** A field that no segment names keeps its initial value (NaN in a parser). */
  lemma {:induction false} LastAssignedUnnamed(p: Platform, keys: seq<string>, segs: seq<string>, i: nat, d: Num)
    requires i < |keys|
    requires forall j :: 0 <= j < |segs| ==> !Names(segs[j], keys[i])
    ensures LastAssigned(p, keys, segs, i, d) == d
    decreases |segs|
  {
    if segs != [] {
      LastAssignedUnnamed(p, keys, segs[..|segs| - 1], i, d);
    }
  }

  //
  // Round trip
  //

  lemma IndexOfDistinct(keys: seq<string>, i: nat)
    requires ValidKeys(keys) && i < |keys|
    ensures IndexOf(keys, keys[i]) == Some(i)
  {
    var r := IndexOf(keys, keys[i]);
    assert r.Some?;
    assert keys[r.value] == keys[i];
  }

  /** A rendered segment splits back into its key and its number text. */
  lemma SplitSegment(key: string, text: string)
    requires Plain(key) && Plain(text)
    ensures JavaSplit(key + "=" + text, "=") == [key, text]
  {
    SplitAllFirst(key, "=", text);
    SplitAllAbsent(text, "=");
  }

  /** The `replaceAll`/`split` pipeline recovers the rendered segments. */
  lemma SegmentizeRender(p: Platform, name: string, keys: seq<string>, vals: seq<real>)
    requires FormatLaws(p) && ValidKeys(keys) && |keys| == |vals| && |keys| >= 1
    ensures StartsWith(Render(p, name, keys, vals), name + "{")
    ensures Segmentize(name, Render(p, name, keys, vals)) == Segments(p, keys, vals)
  {
    var segs := Segments(p, keys, vals);
    var j := Join(segs, ", ");
    var pre := name + "{";
    var s := Render(p, name, keys, vals);
    forall i | 0 <= i < |segs|
      ensures ',' !in segs[i] && '{' !in segs[i] && '}' !in segs[i]
    {
      Formatted(p, vals[i]);
    }
    JoinAvoids(segs, ", ", '{');
    JoinAvoids(segs, ", ", '}');
    assert s == pre + (j + "}");
    assert s[..|pre|] == pre;
    assert s[|pre|..] == j + "}";
    RemoveAllAbsent(j + "}", pre);
    RemoveAllTrailingChar(j, '}');
    Formatted(p, vals[|segs| - 1]);
    JavaSplitJoin(segs, ", ");
  }

  /** Filling from the rendered segments sets every field to its own value. */
  lemma {:induction false} FillRendered(p: Platform, keys: seq<string>, vals: seq<real>, j: nat, acc: seq<Num>)
    requires FormatLaws(p) && ValidKeys(keys) && |keys| == |vals| == |acc| && j <= |keys|
    requires forall k :: 0 <= k < j ==> acc[k] == Fin(vals[k])
    ensures Fill(p, keys, Segments(p, keys, vals)[j..], acc) == Ok(seq(|keys|, i requires 0 <= i < |keys| => Fin(vals[i])))
    decreases |keys| - j
  {
    var segs := Segments(p, keys, vals);
    var target := seq(|keys|, i requires 0 <= i < |keys| => Fin(vals[i]));
    if j == |keys| {
      assert segs[j..] == [];
      assert acc == target;
    } else {
      Formatted(p, vals[j]);
      SplitSegment(keys[j], p.formatDouble(vals[j]));
      IndexOfDistinct(keys, j);
      assert Assignment(p, keys, segs[j]) == Ok(Some((j, Fin(vals[j]))));
      assert segs[j..][1..] == segs[j + 1..];
      FillRendered(p, keys, vals, j + 1, acc[j := Fin(vals[j])]);
    }
  }

  /** Parsing the rendering of finite values gives those values back, each field
      found by name. */
  lemma FieldsRender(p: Platform, name: string, keys: seq<string>, vals: seq<real>)
    requires FormatLaws(p) && ValidKeys(keys) && |keys| == |vals| && |keys| >= 1
    ensures Fields(p, name, keys, Render(p, name, keys, vals))
         == Ok(seq(|keys|, i requires 0 <= i < |keys| => Fin(vals[i])))
  {
    SegmentizeRender(p, name, keys, vals);
    assert Segments(p, keys, vals)[0..] == Segments(p, keys, vals);
    FillRendered(p, keys, vals, 0, Unset(|keys|));
  }
}
