/** What the decorator promises, stated over the model of module InputFilter. */
module InputFilterProperties {
  import opened PhpValue
  import opened InputFilter

  // ---------------------------------------------------------------------
  // isEmptyFileDecorator
  // ---------------------------------------------------------------------

  /** A non-array is empty, and so is any array whose 'error' is
      identically UPLOAD_ERR_NO_FILE, whatever else it holds. */
  lemma EmptyLeafIsEmpty(v: Value)
    requires EmptyLeaf(v)
    ensures HttpServerFileInputDecorator.IsEmptyFileDecorator(v)
  {
  }

  /** `[0 => x]` is exactly as empty as `x` when `x` is not null; the
      wrapped null is not empty, although a bare null is. */
  lemma SingleWrapperIsTransparent(x: Value)
    ensures x != Null ==>
      HttpServerFileInputDecorator.IsEmptyFileDecorator(Arr([(IntKey(0), x)]))
      == HttpServerFileInputDecorator.IsEmptyFileDecorator(x)
    ensures !HttpServerFileInputDecorator.IsEmptyFileDecorator(Arr([(IntKey(0), Null)]))
    ensures HttpServerFileInputDecorator.IsEmptyFileDecorator(Null)
  {
    var w := Arr([(IntKey(0), x)]);
    assert Get(w, IntKey(0)) == Some(x);
    assert Get(w, ERROR) == None;
  }

  /** An empty upload reaches an empty leaf through single-entry wrappers. */
  lemma {:induction false} EmptyUnwrapsToEmptyLeaf(v: Value)
    requires HttpServerFileInputDecorator.IsEmptyFileDecorator(v)
    ensures exists n: nat :: Unwrap(v, n).Some? && EmptyLeaf(Unwrap(v, n).value)
    decreases v
  {
    if EmptyLeaf(v) {
      assert Unwrap(v, 0) == Some(v);
    } else {
      var i := IndexOf(v.entries, IntKey(0));
      var inner := v.entries[i].1;
      assert v.entries[i] in v.entries;
      assert Get(v, IntKey(0)) == Some(inner);
      EmptyUnwrapsToEmptyLeaf(inner);
      var n: nat :| Unwrap(inner, n).Some? && EmptyLeaf(Unwrap(inner, n).value);
      assert Unwrap(v, n + 1) == Unwrap(inner, n);
    }
  }

  /** A value whose unwrapping reaches an empty leaf is empty. */
  lemma {:induction false} EmptyLeafUnderWrappersIsEmpty(v: Value, n: nat)
    requires Unwrap(v, n).Some? && EmptyLeaf(Unwrap(v, n).value)
    ensures HttpServerFileInputDecorator.IsEmptyFileDecorator(v)
    decreases n
  {
    if n > 0 && !EmptyLeaf(v) {
      var inner := Get(v, IntKey(0)).value;
      EmptyLeafUnderWrappersIsEmpty(inner, n - 1);
    }
  }

  /** isEmptyFileDecorator holds exactly when peeling zero or more
      `[0 => x]` wrappers reaches a non-array or a descriptor with error
      UPLOAD_ERR_NO_FILE; every other array, the empty array included, is
      not empty. */
  lemma IsEmptyIffUnwrapsToEmptyLeaf(v: Value)
    ensures HttpServerFileInputDecorator.IsEmptyFileDecorator(v)
        <==> exists n: nat :: Unwrap(v, n).Some? && EmptyLeaf(Unwrap(v, n).value)
  {
    if HttpServerFileInputDecorator.IsEmptyFileDecorator(v) {
      EmptyUnwrapsToEmptyLeaf(v);
    }
    if exists n: nat :: Unwrap(v, n).Some? && EmptyLeaf(Unwrap(v, n).value) {
      var n: nat :| Unwrap(v, n).Some? && EmptyLeaf(Unwrap(v, n).value);
      EmptyLeafUnderWrappersIsEmpty(v, n);
    }
  }

  // ---------------------------------------------------------------------
  // Normalisation and shape in isValid
  // ---------------------------------------------------------------------

  /** A non-array, non-null raw value is validated once, as a placeholder
      descriptor that isEmptyFileDecorator itself calls empty. */
  lemma ScalarIsValidatedAsSingleFile(raw: Value)
    requires !raw.Arr? && raw != Null
    ensures ShapeOf(Normalize(raw)) == SingleFile
    ensures HttpServerFileInputDecorator.IsEmptyFileDecorator(Normalize(raw))
  {
    PlaceholderDescriptor(raw);
  }

  /** A null raw value becomes a descriptor whose tmp_name is null, so
      neither branch of isValid fires and the stored verdict is kept. */
  lemma NullIsUnrecognised()
    ensures ShapeOf(Normalize(Null)) == Unrecognised
  {
    PlaceholderDescriptor(Null);
    var d := Placeholder(Null);
    assert d.entries == [(TMP_NAME, Null), (NAME, Null), (SIZE, Int(0)), (TYPE, Str("")),
                         (ERROR, Int(UPLOAD_ERR_NO_FILE))];
    forall j | 0 <= j < |d.entries| ensures d.entries[j].0 != IntKey(0) {
      assert j == 0 || j == 1 || j == 2 || j == 3 || j == 4;
    }
    GetAbsent(d, IntKey(0));
    assert !Isset(d, TMP_NAME) && !IssetNested(d, IntKey(0), TMP_NAME);
  }

  // ---------------------------------------------------------------------
  // getValue's multi-file filtering
  // ---------------------------------------------------------------------

  /** The positions of the values KeepValues keeps. */
  function KeptPositions<T>(keep: T -> bool, entries: seq<(Key, T)>): (p: seq<int>)
  {
    if |entries| == 0 then []
    else
      KeptPositions(keep, entries[..|entries| - 1])
      + (if keep(entries[|entries| - 1].1) then [|entries| - 1] else [])
  }

  /** Each kept value is the entry at its kept position, and satisfies `keep`. */
  lemma {:induction false} KeptPositionsPick<T>(keep: T -> bool, entries: seq<(Key, T)>)
    ensures |KeptPositions(keep, entries)| == |KeepValues(keep, entries)| <= |entries|
    ensures forall j :: 0 <= j < |KeptPositions(keep, entries)| ==>
              && 0 <= KeptPositions(keep, entries)[j] < |entries|
              && KeepValues(keep, entries)[j] == entries[KeptPositions(keep, entries)[j]].1
              && keep(KeepValues(keep, entries)[j])
  {
    if |entries| > 0 {
      var init := entries[..|entries| - 1];
      KeptPositionsPick(keep, init);
      var p, fs := KeptPositions(keep, init), KeepValues(keep, init);
      forall j | 0 <= j < |p|
        ensures KeptPositions(keep, entries)[j] == p[j] && KeepValues(keep, entries)[j] == fs[j]
        ensures entries[p[j]] == init[p[j]]
      {
      }
    }
  }

  /** The kept positions are strictly increasing: the order is preserved. */
  lemma {:induction false} KeptPositionsIncreasing<T>(keep: T -> bool, entries: seq<(Key, T)>)
    ensures forall j, j' :: 0 <= j < j' < |KeptPositions(keep, entries)| ==>
              KeptPositions(keep, entries)[j] < KeptPositions(keep, entries)[j']
  {
    if |entries| > 0 {
      var init := entries[..|entries| - 1];
      KeptPositionsIncreasing(keep, init);
      KeptPositionsPick(keep, init);
    }
  }

  /** Every position whose value satisfies `keep` is kept. */
  lemma {:induction false} KeptPositionsCover<T>(keep: T -> bool, entries: seq<(Key, T)>)
    ensures forall i :: 0 <= i < |entries| && keep(entries[i].1) ==> i in KeptPositions(keep, entries)
  {
    if |entries| > 0 {
      var init := entries[..|entries| - 1];
      KeptPositionsCover(keep, init);
      forall i | 0 <= i < |init| && keep(entries[i].1)
        ensures i in KeptPositions(keep, entries)
      {
        assert entries[i] == init[i];
      }
    }
  }

  /** KeepValues keeps exactly the values that satisfy `keep`, in their
      original order, so its output is no longer than its input. */
  lemma KeepValuesSelectsExactly<T>(keep: T -> bool, entries: seq<(Key, T)>)
    ensures |KeepValues(keep, entries)| <= |entries|
    ensures SelectsExactly(keep, entries, KeepValues(keep, entries), KeptPositions(keep, entries))
  {
    KeptPositionsPick(keep, entries);
    KeptPositionsIncreasing(keep, entries);
    KeptPositionsCover(keep, entries);
  }

  /** getValue keeps exactly the elements that are arrays with a non-null
      tmp_name, in their original order, and drops the rest. */
  lemma UploadedFilesSelectsExactly(entries: seq<(Key, Value)>)
    ensures |UploadedFiles(entries)| <= |entries|
    ensures exists idx :: SelectsExactly(IsUploadedFile, entries, UploadedFiles(entries), idx)
  {
    KeepValuesSelectsExactly(IsUploadedFile, entries);
  }

  /** Every value getValue filters is an element of the array. */
  lemma UploadedFilesAreElements(entries: seq<(Key, Value)>)
    ensures forall x :: x in UploadedFiles(entries) ==> x in Values(entries) && IsUploadedFile(x)
  {
    KeptPositionsPick(IsUploadedFile, entries);
    var p := KeptPositions(IsUploadedFile, entries);
    forall x | x in UploadedFiles(entries)
      ensures x in Values(entries) && IsUploadedFile(x)
    {
      var j :| 0 <= j < |UploadedFiles(entries)| && UploadedFiles(entries)[j] == x;
      assert Values(entries)[p[j]] == x;
    }
  }

  // ---------------------------------------------------------------------
  // injectUploadValidator
  // ---------------------------------------------------------------------

  /** Prepending twice is prepending once. */
  lemma PrependUploadIdempotent(chain: seq<ValidatorEntry>)
    ensures PrependUpload(PrependUpload(chain)) == PrependUpload(chain)
  {
  }

  /** Injection adds one upload validator when none is first, and none otherwise. */
  lemma PrependUploadAddsAtMostOne(chain: seq<ValidatorEntry>)
    ensures UploadCount(PrependUpload(chain))
         == UploadCount(chain) + (if |chain| > 0 && chain[0].instance == UploadFile then 0 else 1)
  {
  }

  /** Two validations in a row put exactly one upload validator in front
      of the original chain, or leave a chain that already starts with one. */
  method ValidateTwice(d: HttpServerFileInputDecorator, validate: ChainVerdict, context: Value)
    returns (first: Validity, second: Validity)
    requires d.subject.autoPrependUploadValidator
    modifies d.subject
    ensures d.subject.validators == PrependUpload(old(d.subject.validators))
    ensures UploadCount(d.subject.validators)
         == UploadCount(old(d.subject.validators))
            + (if |old(d.subject.validators)| > 0 && old(d.subject.validators)[0].instance == UploadFile then 0 else 1)
    ensures first == second
  {
    PrependUploadAddsAtMostOne(d.subject.validators);
    var inputs;
    first, inputs := d.IsValid(validate, context);
    second, inputs := d.IsValid(validate, context);
  }

  /** Filters only ever see values that the chain accepted in the same
      pass, unless an earlier pass left a true verdict behind and the value
      has neither shape, so that this pass does not overwrite it. */
  method ValidateThenGetValue(d: HttpServerFileInputDecorator, validate: ChainVerdict, filter: Filter, context: Value)
    returns (verdict: Validity, value: Value, validatorInputs: seq<Value>, filterInputs: seq<Value>)
    requires d.subject.isValid != Known(true) || ShapeOf(Normalize(d.subject.value)) != Unrecognised
    modifies d.subject
    ensures forall x :: x in filterInputs ==> x in validatorInputs && validate(d.subject.validators, x, context)
    ensures verdict != Known(true) ==> filterInputs == [] && value == d.subject.value
  {
    verdict, validatorInputs := d.IsValid(validate, context);
    value, filterInputs := d.GetValue(filter);
    var raw := d.subject.value;
    if verdict == Known(true) && raw.Arr? {
      if !Isset(raw, TMP_NAME) {
        assert ShapeOf(Normalize(raw)) == MultiFile;
        UploadedFilesAreElements(raw.entries);
        var vs := Values(raw.entries);
        assert ValidatedCount(validate, d.subject.validators, vs, context) == |vs|;
        assert validatorInputs == vs;
      }
    }
  }

  /** Outside the precondition of ValidateThenGetValue the guarantee fails:
      a true verdict stored by an earlier pass survives a value of neither
      shape, so isValid hands nothing to the chain and getValue still
      filters the descriptor under key 'a'. */
  method StaleVerdictReachesFilter(validate: ChainVerdict, filter: Filter, context: Value)
    returns (validatorInputs: seq<Value>, filterInputs: seq<Value>)
    ensures validatorInputs == [] && filterInputs == [Arr([(TMP_NAME, Str("x"))])]
  {
    var file := Arr([(TMP_NAME, Str("x"))]);
    var raw := Arr([(StrKey("a"), file)]);
    var subject := new FileInput(raw, []);
    // the verdict an earlier pass over another value left behind
    subject.isValid := Known(true);
    var d := new HttpServerFileInputDecorator(subject);
    assert |"a"| != |"tmp_name"|;
    GetAbsent(raw, IntKey(0));
    assert ShapeOf(Normalize(raw)) == Unrecognised;
    var verdict, value;
    verdict, validatorInputs := d.IsValid(validate, context);
    assert Get(file, TMP_NAME) == Some(Str("x"));
    assert UploadedFiles(raw.entries) == KeepValues(IsUploadedFile, raw.entries[..0]) + [file];
    value, filterInputs := d.GetValue(filter);
  }
}
