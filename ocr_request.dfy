/** Request building: finding the item's attachment, naming the upload and
    filling the multipart form. */
module OcrRequest {
  import opened Wrappers
  import opened JsText
  import opened OcrTypes

  /** `items[i].binary?.[name]`. */
  function LookupBinary(item: Item, name: string): (r: Option<BinaryData>)
    ensures r.Some? <==> item.binary.Some? && name in item.binary.value
    ensures r.Some? ==> r.value == item.binary.value[name]
  {
    if item.binary.Some? && name in item.binary.value then Some(item.binary.value[name]) else None
  }

  /** The error thrown when the item has no attachment under `name`. */
  function MissingBinaryError(name: string, i: nat): (e: NodeError)
    ensures e.kind == OperationError
    ensures e.message == "No binary data found in property: " + name
    ensures e.context == Some(ErrorContext(Some(i), map[]))
  {
    NodeError(OperationError, "No binary data found in property: " + name,
              Some(ErrorContext(Some(i), map[])))
  }

  /** The name synthesised for item `i` when its attachment has none. */
  function SynthesizedName(i: nat, bin: BinaryData): string
  {
    "document_" + NatToString(i) + "." + OrElse(bin.fileExtension, "jpg")
  }

  /** The upload's file name: the attachment's own name when it is
      non-empty, otherwise `document_<i>.<extension or jpg>`. */
  function FileName(i: nat, bin: BinaryData): (r: string)
    ensures r != ""
    ensures bin.fileName.Some? && bin.fileName.value != "" ==> r == bin.fileName.value
    ensures bin.fileName.None? || bin.fileName.value == "" ==>
      r == SynthesizedName(i, bin)
  {
    OrElse(bin.fileName, SynthesizedName(i, bin))
  }

  /** The `filetype` field: the attachment's extension, or "". */
  function FileType(bin: BinaryData): string
  {
    OrElse(bin.fileExtension, "")
  }

  /** An attachment with neither a name nor an extension is sent as
      `document_<i>.jpg` with an empty `filetype`. */
  lemma FileNameDefaults(i: nat, bin: BinaryData)
    requires bin.fileName in {None, Some("")} && bin.fileExtension in {None, Some("")}
    ensures FileName(i, bin) == "document_" + NatToString(i) + ".jpg"
    ensures FileType(bin) == ""
  {
  }

  /** A prefix, a run of digits, a '.' and an extension: different digit
      runs give different strings, because the run ends at the first '.'. */
  lemma DigitsThenDotDistinct(pre: string, d1: string, e1: string, d2: string, e2: string)
    requires forall k :: 0 <= k < |d1| ==> IsDigit(d1[k])
    requires forall k :: 0 <= k < |d2| ==> IsDigit(d2[k])
    requires d1 != d2
    ensures pre + d1 + "." + e1 != pre + d2 + "." + e2
  {
    var n1, n2 := pre + d1 + "." + e1, pre + d2 + "." + e2;
    if |d1| < |d2| {
      assert n1[|pre| + |d1|] == '.';
      assert n2[|pre| + |d1|] == d2[|d1|];
    } else if |d2| < |d1| {
      assert n2[|pre| + |d2|] == '.';
      assert n1[|pre| + |d2|] == d1[|d2|];
    } else {
      assert n1[|pre|..|pre| + |d1|] == d1;
      assert n2[|pre|..|pre| + |d2|] == d2;
    }
  }

  /** Synthesised names of two different items always differ, whatever the
      extensions. */
  lemma SynthesizedNamesDistinct(i: nat, bi: BinaryData, j: nat, bj: BinaryData)
    requires i != j
    ensures SynthesizedName(i, bi) != SynthesizedName(j, bj)
  {
    ParseNatToString(i);
    ParseNatToString(j);
    DigitsThenDotDistinct("document_", NatToString(i), OrElse(bi.fileExtension, "jpg"),
                          NatToString(j), OrElse(bj.fileExtension, "jpg"));
  }

  /** The four options, in the order the node appends them. */
  const FlagNames: seq<string> := ["detectOrientation", "isOverlayRequired", "scale", "isTable"]

  /** The option a flag name stands for. */
  function FlagEnabled(opts: Options, name: string): bool
  {
    if name == "detectOrientation" then opts.detectOrientation
    else if name == "isOverlayRequired" then opts.isOverlayRequired
    else if name == "scale" then opts.scale
    else name == "isTable" && opts.isTable
  }

  /** The field a set option contributes: the name with "true", or nothing. */
  function FlagField(name: string, on: bool): Form
  {
    if on then [(name, Plain("true"))] else []
  }

  /** The four fields every request carries. */
  function FixedFields(i: nat, bin: BinaryData, p: Params): Form
  {
    [ ("file", Upload(bin.content, FileName(i, bin))),
      ("filetype", Plain(FileType(bin))),
      ("language", Plain(p.language)),
      ("OCREngine", Plain(p.ocrEngine)) ]
  }

  /** The fields the set options contribute, in the order the node
      appends them. */
  function FlagFields(opts: Options): Form
  {
    FlagField("detectOrientation", opts.detectOrientation)
    + FlagField("isOverlayRequired", opts.isOverlayRequired)
    + FlagField("scale", opts.scale)
    + FlagField("isTable", opts.isTable)
  }

  /** The form the node uploads for item `i`: the fixed fields, then the
      fields of the set options. */
  function RequestForm(i: nat, bin: BinaryData, p: Params): Form
  {
    FixedFields(i, bin, p) + FlagFields(p.options)
  }

  /** The form for item `i`, or None when there is no attachment and so no
      request is made. */
  function RequestOf(i: nat, item: Item, p: Params): (r: Option<Form>)
    ensures r.Some? <==> LookupBinary(item, p.binaryPropertyName).Some?
  {
    match LookupBinary(item, p.binaryPropertyName)
    case None => None
    case Some(bin) => Some(RequestForm(i, bin, p))
  }

  /** Fills the form by successive appends, as the node does. */
  method BuildForm(i: nat, bin: BinaryData, p: Params) returns (form: Form)
    ensures form == RequestForm(i, bin, p)
  {
    var fileName := FileName(i, bin);
    form := [];
    form := form + [("file", Upload(bin.content, fileName))];
    form := form + [("filetype", Plain(OrElse(bin.fileExtension, "")))];
    form := form + [("language", Plain(p.language))];
    form := form + [("OCREngine", Plain(p.ocrEngine))];
    assert form == FixedFields(i, bin, p);
    ghost var flags: Form := [];
    if p.options.detectOrientation {
      form := form + [("detectOrientation", Plain("true"))];
    }
    flags := flags + FlagField("detectOrientation", p.options.detectOrientation);
    assert form == FixedFields(i, bin, p) + flags;
    if p.options.isOverlayRequired {
      form := form + [("isOverlayRequired", Plain("true"))];
    }
    flags := flags + FlagField("isOverlayRequired", p.options.isOverlayRequired);
    assert form == FixedFields(i, bin, p) + flags;
    if p.options.scale {
      form := form + [("scale", Plain("true"))];
    }
    flags := flags + FlagField("scale", p.options.scale);
    assert form == FixedFields(i, bin, p) + flags;
    if p.options.isTable {
      form := form + [("isTable", Plain("true"))];
    }
    flags := flags + FlagField("isTable", p.options.isTable);
    assert form == FixedFields(i, bin, p) + flags;
    assert flags == FlagFields(p.options);
  }

  /** How many fields of `form` carry the key `key`. */
  function Occurrences(form: Form, key: string): nat
  {
    if form == [] then 0
    else (if form[0].0 == key then 1 else 0) + Occurrences(form[1..], key)
  }

  lemma {:induction false} OccurrencesAppend(a: Form, b: Form, key: string)
    ensures Occurrences(a + b, key) == Occurrences(a, key) + Occurrences(b, key)
  {
    if a != [] {
      assert (a + b)[1..] == a[1..] + b;
      OccurrencesAppend(a[1..], b, key);
    } else {
      assert a + b == b;
    }
  }

  lemma {:induction false} OccurrencesAbsent(form: Form, key: string)
    requires forall a :: 0 <= a < |form| ==> form[a].0 != key
    ensures Occurrences(form, key) == 0
  {
    if form != [] {
      OccurrencesAbsent(form[1..], key);
    }
  }

  /** The position of a flag in the order the node appends the flags. */
  function FlagRank(name: string): nat
  {
    if name == "detectOrientation" then 0
    else if name == "isOverlayRequired" then 1
    else if name == "scale" then 2
    else 3
  }

  /** The form begins with `file`, `filetype`, `language` and `OCREngine`,
      in this order and with these values. */
  lemma FormStartsWithFixedFields(i: nat, bin: BinaryData, p: Params)
    ensures var form := RequestForm(i, bin, p);
      && |form| >= 4
      && form[0] == ("file", Upload(bin.content, FileName(i, bin)))
      && form[1] == ("filetype", Plain(OrElse(bin.fileExtension, "")))
      && form[2] == ("language", Plain(p.language))
      && form[3] == ("OCREngine", Plain(p.ocrEngine))
  {
  }

  /** The flag fields name distinct options, each sent as "true", in the
      order of `FlagNames`. */
  lemma FlagFieldsShape(opts: Options)
    ensures var f := FlagFields(opts);
      && (forall a :: 0 <= a < |f| ==> f[a].0 in FlagNames && f[a].1 == Plain("true"))
      && (forall a, b :: 0 <= a < b < |f| ==> FlagRank(f[a].0) < FlagRank(f[b].0))
  {
  }

  /** Every field after the first four is a flag sent as "true", and the
      flags keep their relative order. */
  lemma FormFlagsShape(i: nat, bin: BinaryData, p: Params)
    ensures var form := RequestForm(i, bin, p);
      && (forall a :: 4 <= a < |form| ==> form[a].0 in FlagNames && form[a].1 == Plain("true"))
      && (forall a, b :: 4 <= a < b < |form| ==> FlagRank(form[a].0) < FlagRank(form[b].0))
  {
    var form := RequestForm(i, bin, p);
    var flags := FlagFields(p.options);
    FlagFieldsShape(p.options);
    forall a | 4 <= a < |form|
      ensures form[a] == flags[a - 4]
    {
    }
  }

  /** The keys of the four fields every request carries, in order. */
  const FixedKeys: seq<string> := ["file", "filetype", "language", "OCREngine"]

  /** The eight keys a form can carry are pairwise different. */
  lemma KeyNamesDistinct()
    ensures forall a, b :: 0 <= a < b < |FixedKeys| ==> FixedKeys[a] != FixedKeys[b]
    ensures forall a, b :: 0 <= a < b < |FlagNames| ==> FlagNames[a] != FlagNames[b]
    ensures forall a, k :: 0 <= a < |FixedKeys| && 0 <= k < |FlagNames| ==> FixedKeys[a] != FlagNames[k]
  {
    assert "filetype"[0] != "language"[0];
  }

  /** Fixed fields with distinct keys followed by a flag fields in rank order
      never repeat a key. */
  lemma {:induction false} KeysDistinctConcat(fixed: Form, flags: Form)
    requires |fixed| == |FixedKeys| && forall a :: 0 <= a < |fixed| ==> fixed[a].0 == FixedKeys[a]
    requires forall a :: 0 <= a < |flags| ==> flags[a].0 in FlagNames
    requires forall a, b :: 0 <= a < b < |flags| ==> FlagRank(flags[a].0) < FlagRank(flags[b].0)
    ensures var form := fixed + flags;
      forall a, b :: 0 <= a < b < |form| ==> form[a].0 != form[b].0
  {
    KeyNamesDistinct();
    var form := fixed + flags;
    forall a, b | 0 <= a < b < |form|
      ensures form[a].0 != form[b].0
    {
      if |fixed| <= a {
        assert form[a] == flags[a - |fixed|] && form[b] == flags[b - |fixed|];
      } else if |fixed| <= b {
        assert form[a] == fixed[a] && form[b] == flags[b - |fixed|];
      } else {
        assert form[a] == fixed[a] && form[b] == fixed[b];
      }
    }
  }

  /** No key occurs twice in the form. */
  lemma FormKeysDistinct(i: nat, bin: BinaryData, p: Params)
    ensures var form := RequestForm(i, bin, p);
      forall a, b :: 0 <= a < b < |form| ==> form[a].0 != form[b].0
  {
    FlagFieldsShape(p.options);
    KeysDistinctConcat(FixedFields(i, bin, p), FlagFields(p.options));
  }

  lemma OccurrencesFlagField(flag: string, on: bool, key: string)
    ensures Occurrences(FlagField(flag, on), key) == (if on && flag == key then 1 else 0)
  {
    if on {
      assert FlagField(flag, on)[1..] == [];
    }
  }

  /** Each option's field occurs once when the option is set, and not at all
      otherwise. */
  lemma FormFlagCount(i: nat, bin: BinaryData, p: Params, name: string)
    requires name in FlagNames
    ensures Occurrences(RequestForm(i, bin, p), name) == (if FlagEnabled(p.options, name) then 1 else 0)
  {
    var fixed := FixedFields(i, bin, p);
    OccurrencesAppend(fixed, FlagFields(p.options), name);
    KeyNamesDistinct();
    assert forall a :: 0 <= a < |fixed| ==> fixed[a].0 == FixedKeys[a];
    OccurrencesAbsent(fixed, name);
    FlagFieldsCount(p.options, name);
  }

  /** Each option's field occurs among the flag fields once when the option
      is set, and not at all otherwise. */
  lemma FlagFieldsCount(o: Options, name: string)
    requires name in FlagNames
    ensures Occurrences(FlagFields(o), name) == (if FlagEnabled(o, name) then 1 else 0)
  {
    var f1 := FlagField("detectOrientation", o.detectOrientation);
    var f2 := FlagField("isOverlayRequired", o.isOverlayRequired);
    var f3 := FlagField("scale", o.scale);
    var f4 := FlagField("isTable", o.isTable);
    OccurrencesAppend(f1 + f2 + f3, f4, name);
    OccurrencesAppend(f1 + f2, f3, name);
    OccurrencesAppend(f1, f2, name);
    OccurrencesFlagField("detectOrientation", o.detectOrientation, name);
    OccurrencesFlagField("isOverlayRequired", o.isOverlayRequired, name);
    OccurrencesFlagField("scale", o.scale, name);
    OccurrencesFlagField("isTable", o.isTable, name);
  }

  /** An option is sent as "true" exactly when it is set, and never as
      "false". */
  lemma FormFlagSentIffEnabled(i: nat, bin: BinaryData, p: Params, name: string)
    requires name in FlagNames
    ensures (name, Plain("true")) in RequestForm(i, bin, p) <==> FlagEnabled(p.options, name)
    ensures (name, Plain("false")) !in RequestForm(i, bin, p)
  {
  }
}
