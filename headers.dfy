/** Normalisation of response header fields into a multimap from lower-case
    names to ordered lists of values (`formattedLowercasedHeaders`). */
module HeaderCodec {
  import opened Text

  /** Normalised headers: lower-case name to its values, in arrival order. */
  type Headers = map<string, seq<string>>

  /** A key of the engine's raw header collection, which need not be text. */
  datatype HeaderKey = TextKey(name: string) | OtherKey

  /** One raw header field as the engine reports it; the collection is
      visited in the order of the sequence. */
  datatype HeaderEntry = HeaderEntry(key: HeaderKey, value: string)

  /** The values one raw field contributes: its value split at every comma,
      each piece trimmed, empty pieces kept. */
  function Pieces(value: string): (r: seq<string>)
    ensures |r| == Count(value, ',') + 1
  {
    TrimAll(Split(value, ','))
  }

  lemma PiecesAreTrimmed(value: string)
    ensures forall i :: 0 <= i < |Pieces(value)| ==> IsTrimmed(Pieces(value)[i])
  {
  }

  function TrimAll(parts: seq<string>): seq<string>
  {
    seq(|parts|, i requires 0 <= i < |parts| => Trim(parts[i]))
  }

  /** Values already stored under `name`, none if the name is absent. */
  function Existing(h: Headers, name: string): seq<string>
  {
    if name in h then h[name] else []
  }

  /** The accumulator step: a field with a text key appends its pieces under
      its lower-cased name; any other key contributes nothing. */
  function AddEntry(h: Headers, e: HeaderEntry): Headers
  {
    match e.key
    case OtherKey => h
    case TextKey(n) => h[Lower(n) := Existing(h, Lower(n)) + Pieces(e.value)]
  }

  /** The fold over the raw fields, in order, from no headers. */
  function Normalize(entries: seq<HeaderEntry>): Headers
    decreases |entries|
  {
    if entries == [] then map[]
    else AddEntry(Normalize(entries[..|entries| - 1]), entries[|entries| - 1])
  }

  /** `formattedLowercasedHeaders`: the loop over the raw fields, and over the
      comma-separated pieces of each, appending into the accumulator. */
  method FormattedLowercasedHeaders(allHeaderFields: seq<HeaderEntry>) returns (headers: Headers)
    ensures headers == Normalize(allHeaderFields)
  {
    headers := map[];
    for i := 0 to |allHeaderFields|
      invariant headers == Normalize(allHeaderFields[..i])
    {
      assert allHeaderFields[..i + 1][..i] == allHeaderFields[..i];
      var current := allHeaderFields[i];
      if current.key.TextKey? {
        var headerName := Lower(current.key.name);
        headers := AppendTrimmed(headers, headerName, Split(current.value, ','));
      }
    }
    assert allHeaderFields[..|allHeaderFields|] == allHeaderFields;
  }

  /** The inner loop of `formattedLowercasedHeaders`: appends each piece,
      trimmed, to the list of `headerName`, creating it on the first. */
  method AppendTrimmed(headers: Headers, headerName: string, values: seq<string>) returns (r: Headers)
    requires |values| >= 1
    ensures r == headers[headerName := Existing(headers, headerName) + TrimAll(values)]
  {
    r := headers;
    ghost var t := TrimAll(values);
    ghost var e := Existing(headers, headerName);
    for j := 0 to |values|
      invariant j == 0 ==> r == headers
      invariant j > 0 ==> r == headers[headerName := e + t[..j]]
    {
      var v := Trim(values[j]);
      AppendOne(headers, headerName, t, j, r);
      r := r[headerName := Existing(r, headerName) + [v]];
    }
    assert t[..|values|] == t;
  }

  /** One turn of the inner loop: appending the next trimmed piece extends
      the list by one more piece. */
  lemma AppendOne(headers: Headers, name: string, t: seq<string>, j: nat, r: Headers)
    requires j < |t|
    requires j == 0 ==> r == headers
    requires j > 0 ==> r == headers[name := Existing(headers, name) + t[..j]]
    ensures r[name := Existing(r, name) + [t[j]]] == headers[name := Existing(headers, name) + t[..j + 1]]
  {
    var e := Existing(headers, name);
    assert Existing(r, name) == e + t[..j];
    assert t[..j + 1] == t[..j] + [t[j]];
    assert (e + t[..j]) + [t[j]] == e + t[..j + 1];
  }

  /** Whether raw field `e` is filed under the normalised name `name`. */
  predicate FiledUnder(e: HeaderEntry, name: string)
  {
    e.key.TextKey? && Lower(e.key.name) == name
  }

  function Flatten(parts: seq<seq<string>>): seq<string>
  {
    if parts == [] then [] else parts[0] + Flatten(parts[1..])
  }

  lemma {:induction false} FlattenSnoc(parts: seq<seq<string>>, last: seq<string>)
    ensures Flatten(parts + [last]) == Flatten(parts) + last
    decreases |parts|
  {
    if parts == [] {
      assert [] + [last] == [last];
      assert Flatten([last]) == last + Flatten([]);
    } else {
      assert (parts + [last])[1..] == parts[1..] + [last];
      FlattenSnoc(parts[1..], last);
    }
  }

  /** What raw field `e` contributes to the list of `name`. */
  function Contribution(e: HeaderEntry, name: string): seq<string>
  {
    if FiledUnder(e, name) then Pieces(e.value) else []
  }

  function Contributions(entries: seq<HeaderEntry>, name: string): seq<seq<string>>
  {
    seq(|entries|, i requires 0 <= i < |entries| => Contribution(entries[i], name))
  }

  /** Reference definition: the values of `name` are the pieces of every raw
      field filed under it, concatenated in arrival order. */
  function ValuesFor(entries: seq<HeaderEntry>, name: string): seq<string>
  {
    Flatten(Contributions(entries, name))
  }

  lemma ValuesForSnoc(entries: seq<HeaderEntry>, name: string)
    requires entries != []
    ensures ValuesFor(entries, name)
         == ValuesFor(entries[..|entries| - 1], name) + Contribution(entries[|entries| - 1], name)
  {
    var n := |entries| - 1;
    assert Contributions(entries, name) == Contributions(entries[..n], name) + [Contribution(entries[n], name)];
    FlattenSnoc(Contributions(entries[..n], name), Contribution(entries[n], name));
  }

  lemma AddEntryElsewhere(h: Headers, e: HeaderEntry, name: string)
    requires !FiledUnder(e, name)
    ensures name in AddEntry(h, e) <==> name in h
    ensures name in h ==> AddEntry(h, e)[name] == h[name]
  {
  }

  lemma AddEntryHere(h: Headers, e: HeaderEntry, name: string)
    requires FiledUnder(e, name)
    ensures name in AddEntry(h, e)
    ensures AddEntry(h, e)[name] == Existing(h, name) + Pieces(e.value)
  {
  }

  /** A normalised name is present exactly when some raw field is filed
      under it. */
  lemma {:induction false} NormalizeHasName(entries: seq<HeaderEntry>, name: string)
    ensures name in Normalize(entries) <==> exists i :: 0 <= i < |entries| && FiledUnder(entries[i], name)
    decreases |entries|
  {
    if entries != [] {
      var n := |entries| - 1;
      var init := entries[..n];
      NormalizeHasName(init, name);
      assert forall i :: 0 <= i < n ==> entries[i] == init[i];
      if FiledUnder(entries[n], name) {
        AddEntryHere(Normalize(init), entries[n], name);
      } else {
        AddEntryElsewhere(Normalize(init), entries[n], name);
      }
    }
  }

  /** The list of a normalised name is the in-order concatenation of the
      pieces of every raw field filed under it. */
  lemma {:induction false} NormalizeIsPerNameConcatenation(entries: seq<HeaderEntry>, name: string)
    requires name in Normalize(entries)
    ensures Normalize(entries)[name] == ValuesFor(entries, name)
    decreases |entries|
  {
    var n := |entries| - 1;
    var init := entries[..n];
    var before := Normalize(init);
    assert Normalize(entries) == AddEntry(before, entries[n]);
    ValuesForSnoc(entries, name);
    if FiledUnder(entries[n], name) {
      AddEntryHere(before, entries[n], name);
      if name in before {
        NormalizeIsPerNameConcatenation(init, name);
      } else {
        NormalizeHasName(init, name);
        NoFieldNoValues(init, name);
      }
    } else {
      AddEntryElsewhere(before, entries[n], name);
      NormalizeIsPerNameConcatenation(init, name);
    }
  }

  lemma NoFieldNoValues(entries: seq<HeaderEntry>, name: string)
    requires forall i :: 0 <= i < |entries| ==> !FiledUnder(entries[i], name)
    ensures ValuesFor(entries, name) == []
  {
    FlattenOfEmpties(Contributions(entries, name));
  }

  lemma {:induction false} FlattenOfEmpties(parts: seq<seq<string>>)
    requires forall i :: 0 <= i < |parts| ==> parts[i] == []
    ensures Flatten(parts) == []
    decreases |parts|
  {
    if parts != [] {
      FlattenOfEmpties(parts[1..]);
    }
  }

  /** The shape of a normalised multimap: every name is lower-case, every
      list is non-empty, and every value is trimmed and free of commas. */
  predicate IsNormalized(h: Headers)
  {
    forall name :: name in h ==>
      && IsLowerCase(name)
      && h[name] != []
      && forall i :: 0 <= i < |h[name]| ==> IsTrimmed(h[name][i]) && ',' !in h[name][i]
  }

  /** No piece of a raw value contains a comma. */
  lemma PiecesAreCommaFree(value: string)
    ensures forall i :: 0 <= i < |Pieces(value)| ==> ',' !in Pieces(value)[i]
  {
    var parts := Split(value, ',');
    forall i | 0 <= i < |parts| ensures ',' !in Trim(parts[i]) {
      TrimAddsNothing(parts[i], ',');
    }
  }

  /** Every normalised name is lower-case, every list is non-empty, and every
      value is trimmed and comma-free. */
  lemma {:induction false} NormalizedNamesAndValues(entries: seq<HeaderEntry>)
    ensures IsNormalized(Normalize(entries))
    decreases |entries|
  {
    if entries != [] {
      NormalizedNamesAndValues(entries[..|entries| - 1]);
      AddEntryKeepsNormalized(Normalize(entries[..|entries| - 1]), entries[|entries| - 1]);
    }
  }

  /** One more raw field keeps a multimap normalised. */
  lemma AddEntryKeepsNormalized(h: Headers, e: HeaderEntry)
    requires IsNormalized(h)
    ensures IsNormalized(AddEntry(h, e))
  {
    if e.key.TextKey? {
      var earlier := Existing(h, Lower(e.key.name));
      var added := Pieces(e.value);
      PiecesAreTrimmed(e.value);
      PiecesAreCommaFree(e.value);
      CleanAppend(earlier, added);
    }
  }

  /** Appending two lists of trimmed, comma-free values gives one. */
  lemma CleanAppend(a: seq<string>, b: seq<string>)
    requires forall i :: 0 <= i < |a| ==> IsTrimmed(a[i]) && ',' !in a[i]
    requires forall i :: 0 <= i < |b| ==> IsTrimmed(b[i]) && ',' !in b[i]
    ensures forall i :: 0 <= i < |a + b| ==> IsTrimmed((a + b)[i]) && ',' !in (a + b)[i]
  {
    forall i | 0 <= i < |a + b|
      ensures IsTrimmed((a + b)[i]) && ',' !in (a + b)[i]
    {
      if i >= |a| {
        assert (a + b)[i] == b[i - |a|];
      }
    }
  }

  /** The raw fields that carry a multimap back: one per name, in the order
      of `names`, each holding the name's values joined with commas, as the
      request conversion writes them. */
  function JoinedFields(h: Headers, names: seq<string>): seq<HeaderEntry>
    requires forall i :: 0 <= i < |names| ==> names[i] in h
  {
    seq(|names|, i requires 0 <= i < |names| => HeaderEntry(TextKey(names[i]), Join(h[names[i]], ',')))
  }

  /** Sending a new lower-case name as one field of comma-joined, trimmed,
      comma-free values adds exactly that name with those values. */
  lemma AddJoinedField(m: Headers, n: string, values: seq<string>)
    requires n !in m && IsLowerCase(n) && values != []
    requires forall i :: 0 <= i < |values| ==> IsTrimmed(values[i]) && ',' !in values[i]
    ensures AddEntry(m, HeaderEntry(TextKey(n), Join(values, ','))) == m[n := values]
  {
    PiecesOfJoin(values);
    AddFieldOfPieces(m, n, Join(values, ','), values);
  }

  /** A field under a new lower-case name adds that name with exactly the
      field's pieces. */
  lemma AddFieldOfPieces(m: Headers, n: string, value: string, values: seq<string>)
    requires n !in m && IsLowerCase(n) && Pieces(value) == values
    ensures AddEntry(m, HeaderEntry(TextKey(n), value)) == m[n := values]
  {
    LowerIdempotent(n);
    AddTextEntry(m, n, value, n, values);
    assert Existing(m, n) == [];
    assert [] + values == values;
  }

  /** `h` restricted to the keys listed in `keys`. */
  function Restrict<K, V>(h: map<K, V>, keys: seq<K>): map<K, V>
  {
    map x | x in h && x in keys :: h[x]
  }

  /** Listing one more key that `h` holds adds that key's entry. */
  lemma RestrictStep<K, V>(h: map<K, V>, keys: seq<K>, j: nat)
    requires 0 < j <= |keys| && keys[j - 1] in h
    ensures Restrict(h, keys[..j - 1])[keys[j - 1] := h[keys[j - 1]]] == Restrict(h, keys[..j])
  {
    assert keys[..j] == keys[..j - 1] + [keys[j - 1]];
  }

  lemma {:induction false} RenormalizePrefix(h: Headers, names: seq<string>, j: nat)
    requires IsNormalized(h)
    requires forall i :: 0 <= i < |names| ==> names[i] in h
    requires forall i, k :: 0 <= i < k < |names| ==> names[i] != names[k]
    requires j <= |names|
    ensures Normalize(JoinedFields(h, names)[..j]) == Restrict(h, names[..j])
    decreases j
  {
    var fields := JoinedFields(h, names);
    if j == 0 {
      assert fields[..0] == [];
      assert Restrict(h, names[..0]) == map[];
    } else {
      var n := names[j - 1];
      var m := Restrict(h, names[..j - 1]);
      assert Normalize(fields[..j]) == AddEntry(m, fields[j - 1]) by {
        assert fields[..j][..j - 1] == fields[..j - 1];
        RenormalizePrefix(h, names, j - 1);
      }
      assert n !in m by {
        assert forall i :: 0 <= i < j - 1 ==> names[..j - 1][i] == names[i] != n;
      }
      assert fields[j - 1] == HeaderEntry(TextKey(n), Join(h[n], ','));
      assert IsLowerCase(n) && h[n] != [] && forall i :: 0 <= i < |h[n]| ==> IsTrimmed(h[n][i]) && ',' !in h[n][i] by {
        assert n in h;
      }
      AddJoinedField(m, n, h[n]);
      RestrictStep(h, names, j);
    }
  }

  /** Normalising a whole normalised multimap again changes nothing: every
      name sent once, in any order, as one field holding its values joined
      with commas, comes back as the same multimap. */
  lemma RenormalizeHeaders(h: Headers, names: seq<string>)
    requires IsNormalized(h)
    requires forall n :: n in h <==> n in names
    requires forall i, k :: 0 <= i < k < |names| ==> names[i] != names[k]
    ensures Normalize(JoinedFields(h, names)) == h
  {
    RenormalizePrefix(h, names, |names|);
    assert JoinedFields(h, names)[..|names|] == JoinedFields(h, names);
    assert names[..|names|] == names;
    assert Restrict(h, names) == h;
  }

  /** The output of the codec is a fixed point: joining each of its lists
      with commas and normalising again gives the same headers. */
  lemma NormalizeIsIdempotent(entries: seq<HeaderEntry>, names: seq<string>)
    requires forall n :: n in Normalize(entries) <==> n in names
    requires forall i, k :: 0 <= i < k < |names| ==> names[i] != names[k]
    ensures Normalize(JoinedFields(Normalize(entries), names)) == Normalize(entries)
  {
    NormalizedNamesAndValues(entries);
    RenormalizeHeaders(Normalize(entries), names);
  }

  /** A raw field with `k` commas in its value adds exactly `k + 1` values,
      empty pieces included, at the end of its name's list. */
  lemma FieldAddsOneValuePerPiece(h: Headers, name: string, value: string)
    ensures var after := AddEntry(h, HeaderEntry(TextKey(name), value));
      Lower(name) in after
      && |after[Lower(name)]| == |Existing(h, Lower(name))| + Count(value, ',') + 1
      && after[Lower(name)][..|Existing(h, Lower(name))|] == Existing(h, Lower(name))
      && after - {Lower(name)} == h - {Lower(name)}
  {
    var after := AddEntry(h, HeaderEntry(TextKey(name), value));
    assert after[Lower(name)] == Existing(h, Lower(name)) + Pieces(value);
  }

  /** Values already split and trimmed survive a join with commas followed by
      the split-and-trim of the codec. */
  lemma PiecesOfJoin(values: seq<string>)
    requires |values| >= 1
    requires forall i :: 0 <= i < |values| ==> IsTrimmed(values[i]) && ',' !in values[i]
    ensures Pieces(Join(values, ',')) == values
  {
    SplitJoin(values, ',');
    forall i | 0 <= i < |values| ensures Trim(values[i]) == values[i] {
      TrimOfTrimmed(values[i]);
    }
  }

  /** Normalising is a no-op on a header that is already normalised: a
      lower-case name whose trimmed, comma-free values are sent as one
      comma-joined field comes back as the same name and values. */
  lemma RenormalizeSingleHeader(name: string, values: seq<string>)
    requires IsLowerCase(name) && |values| >= 1
    requires forall i :: 0 <= i < |values| ==> IsTrimmed(values[i]) && ',' !in values[i]
    ensures Normalize([HeaderEntry(TextKey(name), Join(values, ','))]) == map[name := values]
  {
    var e := HeaderEntry(TextKey(name), Join(values, ','));
    assert [e][..0] == [];
    assert Normalize([e]) == AddEntry(map[], e);
    PiecesOfJoin(values);
    LowerIdempotent(name);
    assert AddEntry(map[], e) == map[name := [] + values];
    assert [] + values == values;
  }

  /** A value without commas is one piece, once trimmed. */
  lemma PiecesOfPlain(v: string)
    requires IsTrimmed(v) && ',' !in v
    ensures Pieces(v) == [v]
  {
    PiecesOfJoin([v]);
  }

  /** Two values written with a comma and a space between them, as servers
      commonly do, come back as the two values. */
  lemma PiecesOfCommaSpace(a: string, b: string)
    requires IsTrimmed(a) && IsTrimmed(b) && ',' !in a && ',' !in b
    ensures Pieces(a + ", " + b) == [a, b]
  {
    var spaced := [' '] + b;
    SplitAtCommaSpace(a, b);
    TrimAllPair(a, spaced);
    TrimOfTrimmed(a);
    TrimLeadingSpace(b);
  }

  lemma SplitAtCommaSpace(a: string, b: string)
    requires ',' !in a && ',' !in b
    ensures Split(a + ", " + b, ',') == [a, [' '] + b]
  {
    var spaced := [' '] + b;
    assert ',' !in spaced;
    assert Join([a, spaced], ',') == a + ", " + b;
    SplitJoin([a, spaced], ',');
  }

  lemma TrimAllPair(x: string, y: string)
    ensures TrimAll([x, y]) == [Trim(x), Trim(y)]
  {
    var r := TrimAll([x, y]);
    assert |r| == 2 && r[0] == Trim(x) && r[1] == Trim(y);
  }

  /** `AddEntry` for a text key, with its lower-cased name and pieces given. */
  lemma AddTextEntry(h: Headers, key: string, value: string, name: string, pieces: seq<string>)
    requires Lower(key) == name && Pieces(value) == pieces
    ensures AddEntry(h, HeaderEntry(TextKey(key), value)) == h[name := Existing(h, name) + pieces]
  {
  }

  lemma NormalizeSingle(e: HeaderEntry)
    ensures Normalize([e]) == AddEntry(map[], e)
  {
    assert [e][..0] == [];
  }

  lemma NormalizePair(e0: HeaderEntry, e1: HeaderEntry)
    ensures Normalize([e0, e1]) == AddEntry(AddEntry(map[], e0), e1)
  {
    assert [e0, e1][..1] == [e0];
    NormalizeSingle(e0);
  }

  lemma Overwrite(k: string, a: seq<string>, b: seq<string>)
    ensures map[k := a][k := b] == map[k := b]
  {
  }

  lemma LowerContentType()
    ensures Lower("Content-Type") == "content-type"
    ensures Lower("content-type") == "content-type"
  {
    LowerIdempotent("content-type");
  }

  /** A value "a, b" under "Content-Type" normalises to the list ["a", "b"]
      under "content-type". */
  lemma CommaJoinedValueIsSplit()
    ensures Normalize([HeaderEntry(TextKey("Content-Type"), "a, b")])
         == map["content-type" := ["a", "b"]]
  {
    var ct := "content-type";
    PiecesOfCommaSpace("a", "b");
    assert "a" + ", " + "b" == "a, b";
    LowerContentType();
    NormalizeSingle(HeaderEntry(TextKey("Content-Type"), "a, b"));
    AddTextEntry(map[], "Content-Type", "a, b", ct, ["a", "b"]);
    assert [] + ["a", "b"] == ["a", "b"];
  }

  /** Two fields whose names differ only in case are merged under one
      lower-case name, the first field's pieces first. */
  lemma TwoSpellingsMerge(n0: string, v0: string, n1: string, v1: string, name: string)
    requires Lower(n0) == name && Lower(n1) == name
    ensures Normalize([HeaderEntry(TextKey(n0), v0), HeaderEntry(TextKey(n1), v1)])
         == map[name := Pieces(v0) + Pieces(v1)]
  {
    NormalizePair(HeaderEntry(TextKey(n0), v0), HeaderEntry(TextKey(n1), v1));
    var h0: Headers := map[];
    AddTextEntry(h0, n0, v0, name, Pieces(v0));
    var h1 := h0[name := [] + Pieces(v0)];
    assert [] + Pieces(v0) == Pieces(v0);
    AddTextEntry(h1, n1, v1, name, Pieces(v1));
    assert map[name := Pieces(v0)][name := Pieces(v0) + Pieces(v1)] == map[name := Pieces(v0) + Pieces(v1)];
  }

  /** Two fields "a" and "b" under case-varying spellings of "Content-Type"
      normalise to the same headers as the single comma-joined field. */
  lemma RepeatedFieldsAreMerged()
    ensures Normalize([HeaderEntry(TextKey("content-type"), "a"), HeaderEntry(TextKey("Content-Type"), "b")])
         == map["content-type" := ["a", "b"]]
  {
    PiecesOfPlain("a");
    PiecesOfPlain("b");
    LowerContentType();
    TwoSpellingsMerge("content-type", "a", "Content-Type", "b", "content-type");
    assert ["a"] + ["b"] == ["a", "b"];
  }
}
