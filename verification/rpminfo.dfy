/** Reading package fields out of the text `rpm -qip` prints, and the
    kilobyte figure shown for the installed size. */
module RpmInfo {
  import opened Text

  /** The header fields the installer looks for, in the order it tries them. */
  const FieldKeys: seq<string> := ["Name", "Version", "Release", "Architecture", "Summary", "Size", "License"]

  /** `line.startswith(key + " ")`. */
  predicate StartsWithKey(line: string, key: string)
  {
    key + " " <= line
  }

  /** A line records field `key`, one of `keys`, when it starts with the key
      and a space. */
  predicate Labels(keys: seq<string>, line: string, key: string)
  {
    key in keys && StartsWithKey(line, key)
  }

  /** The substitution of the pattern `^key\s*:\s*` by nothing: after the key
      and any whitespace there must be a colon, which is removed together with
      the whitespace around it; without the colon the line is left as it is. */
  function AfterLabel(key: string, line: string): string
  {
    if key <= line then
      var i := SkipSpace(line, |key|);
      if i < |line| && line[i] == ':' then line[SkipSpace(line, i + 1)..] else line
    else line
  }

  /** The recorded value of a labelled line: the substitution, then `strip`. */
  function FieldValue(key: string, line: string): string
  {
    Strip(AfterLabel(key, line))
  }

  /** The substitution removes the key, the padding around the colon and
      the colon itself, and leaves the rest of the line untouched. */
  lemma AfterLabelLaidOut(key: string, pad1: string, pad2: string, rest: string)
    requires AllSpace(pad1) && AllSpace(pad2)
    requires rest == [] || !IsSpace(rest[0])
    ensures AfterLabel(key, key + pad1 + ":" + pad2 + rest) == rest
  {
    var line := key + pad1 + ":" + pad2 + rest;
    var c := |key| + |pad1|;
    var d := c + 1 + |pad2|;
    assert line[..|key|] == key;
    forall m | |key| <= m < c ensures IsSpace(line[m]) {
      assert line[m] == pad1[m - |key|];
    }
    assert line[c] == ':';
    SkipSpaceRun(line, |key|, c);
    forall m | c + 1 <= m < d ensures IsSpace(line[m]) {
      assert line[m] == pad2[m - c - 1];
    }
    assert rest != [] ==> line[d] == rest[0];
    SkipSpaceRun(line, c + 1, d);
    assert line[d..] == rest;
  }

  /** A line laid out as `key`, padding, a colon, padding, the value and
      trailing padding yields exactly the value. */
  lemma LabelledValue(key: string, pad1: string, pad2: string, v: string, pad3: string)
    requires AllSpace(pad1) && AllSpace(pad2) && AllSpace(pad3) && Trimmed(v)
    ensures FieldValue(key, key + pad1 + ":" + pad2 + v + pad3) == v
  {
    if v == [] {
      AllSpaceConcat(pad2, pad3);
      assert key + pad1 + ":" + pad2 + v + pad3 == key + pad1 + ":" + (pad2 + pad3) + [];
      AfterLabelLaidOut(key, pad1, pad2 + pad3, []);
    } else {
      assert key + pad1 + ":" + pad2 + v + pad3 == key + pad1 + ":" + pad2 + (v + pad3);
      AfterLabelLaidOut(key, pad1, pad2, v + pad3);
      assert [] + v + pad3 == v + pad3;
      StripPadded([], v, pad3);
    }
  }

  /** Without a colon after the key and its padding, the whole line is kept
      (stripped), key included. */
  lemma UnlabelledValue(key: string, pad: string, w: string)
    requires AllSpace(pad)
    requires w == [] || (!IsSpace(w[0]) && w[0] != ':')
    ensures FieldValue(key, key + pad + w) == Strip(key + pad + w)
  {
    var line := key + pad + w;
    var c := |key| + |pad|;
    assert forall m :: |key| <= m < c ==> line[m] == pad[m - |key|];
    assert w != [] ==> line[c] == w[0];
    SkipSpaceRun(line, |key|, c);
  }

  /** How a labelled line is turned into a field value; the installer uses
      `FieldValue`. */
  type Extractor = (string, string) -> string

  /** One turn of the inner loop over `FieldKeys` for one line: every key the
      line labels gets that line's value, the others keep theirs. */
  function ApplyKeys(fields: map<string, string>, keys: seq<string>, line: string, extract: Extractor): (r: map<string, string>)
    ensures forall k :: k in r <==> k in fields || (k in keys && StartsWithKey(line, k))
    ensures forall k :: k in r ==>
      r[k] == if k in keys && StartsWithKey(line, k) then extract(k, line) else fields[k]
    decreases |keys|
  {
    if keys == [] then fields
    else
      var key := keys[0];
      var next := if StartsWithKey(line, key) then fields[key := extract(key, line)] else fields;
      var r := ApplyKeys(next, keys[1..], line, extract);
      assert forall k :: k in keys <==> k == key || k in keys[1..];
      r
  }

  /** `j` is the last line that labels `key`. */
  predicate LastLabelled(keys: seq<string>, lines: seq<string>, key: string, j: int)
  {
    0 <= j < |lines| && Labels(keys, lines[j], key) &&
      forall m :: j < m < |lines| ==> !Labels(keys, lines[m], key)
  }

  /** The field loop of `_query_rpm_info` over the lines of the output: a
      field is present exactly when some line labels it, and its value comes
      from the last such line. */
  function ParseFields(keys: seq<string>, lines: seq<string>, extract: Extractor): (fields: map<string, string>)
    ensures forall k :: k in fields <==> exists j :: 0 <= j < |lines| && Labels(keys, lines[j], k)
    ensures forall k, j :: LastLabelled(keys, lines, k, j) ==> k in fields && fields[k] == extract(k, lines[j])
    decreases |lines|
  {
    if lines == [] then map[]
    else
      var init := lines[..|lines| - 1];
      var last := lines[|lines| - 1];
      var prev := ParseFields(keys, init, extract);
      var fields := ApplyKeys(prev, keys, last, extract);
      ParseStep(keys, init, last, prev, fields, extract);
      assert init + [last] == lines;
      fields
  }

  /** Adding one line to the parsed prefix keeps the characterisation. */
  lemma ParseStep(keys: seq<string>, init: seq<string>, last: string, prev: map<string, string>, fields: map<string, string>, extract: Extractor)
    requires forall k :: k in prev <==> exists j :: 0 <= j < |init| && Labels(keys, init[j], k)
    requires forall k, j :: LastLabelled(keys, init, k, j) ==> k in prev && prev[k] == extract(k, init[j])
    requires fields == ApplyKeys(prev, keys, last, extract)
    ensures var lines := init + [last];
      forall k :: k in fields <==> exists j :: 0 <= j < |lines| && Labels(keys, lines[j], k)
    ensures var lines := init + [last];
      forall k, j :: LastLabelled(keys, lines, k, j) ==> k in fields && fields[k] == extract(k, lines[j])
  {
    var lines := init + [last];
    var n := |init|;
    assert lines[n] == last;
    assert forall j :: 0 <= j < n ==> lines[j] == init[j];
    forall k
      ensures k in fields <==> exists j :: 0 <= j < |lines| && Labels(keys, lines[j], k)
    {
      if k in fields && !Labels(keys, last, k) {
        assert k in prev;
        var j :| 0 <= j < n && Labels(keys, init[j], k);
        assert Labels(keys, lines[j], k);
      }
    }
    forall k, j | LastLabelled(keys, lines, k, j)
      ensures k in fields && fields[k] == extract(k, lines[j])
    {
      if j < n {
        assert !Labels(keys, lines[n], k);
        assert LastLabelled(keys, init, k, j);
      }
    }
  }

  /** The fields of the whole standard output, split as `splitlines` does: a
      field is present exactly when some output line starts with its key and
      a space, and its value is read from the last such line. */
  function Parse(stdout: string): (fields: map<string, string>)
    ensures var lines := SplitLines(stdout);
      forall k :: k in fields <==> exists j :: 0 <= j < |lines| && Labels(FieldKeys, lines[j], k)
    ensures var lines := SplitLines(stdout);
      forall k, j :: LastLabelled(FieldKeys, lines, k, j) ==> k in fields && fields[k] == FieldValue(k, lines[j])
  {
    ParseFields(FieldKeys, SplitLines(stdout), FieldValue)
  }

  /** The installed size as shown: whole kilobytes, or `?` when the value is
      not a digit string. */
  datatype SizeShown = Kb(kb: nat) | Unknown

  /** `int(size) // 1024` when `size.isdigit()`, else `"?"`. */
  function ShowSize(size: string): (r: SizeShown)
    ensures r.Kb? <==> IsDecimal(size)
    ensures r.Kb? ==> r.kb * 1024 <= DecimalValue(size) < r.kb * 1024 + 1024
  {
    if IsDecimal(size) then Kb(DecimalValue(size) / 1024) else Unknown
  }

  /** Zero padding in front of the size does not change the kilobytes shown,
      as `int` ignores leading zeros. */
  lemma ShowSizeZeroPadded(size: string)
    requires IsDecimal(size)
    ensures ShowSize("0" + size) == ShowSize(size)
  {
    assert IsDecimal("0" + size) by {
      assert forall i :: 1 <= i < |"0" + size| ==> ("0" + size)[i] == size[i - 1];
    }
    LeadingZero(size);
  }
}
