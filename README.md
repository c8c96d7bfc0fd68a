# HttpServerFileInputDecorator, modelled in Dafny

Zend\InputFilter's `HttpServerFileInputDecorator` wraps a `FileInput` (its
*subject*) and decides how an upload value in the PHP `$_FILES` shape is
validated and filtered:

- `isEmptyFileDecorator` tells whether a raw value means "no file was uploaded";
- `isValid` runs the validator chain before any filter, over one descriptor
  or over each element of a multi-file array, stopping at the first rejected
  file, and stores the verdict in the subject;
- `getValue` filters only after a successful validation, the whole descriptor
  once, or each element of a multi-file array that carries a `tmp_name`;
- `injectUploadValidator` puts the upload validator at the front of the
  subject's validator chain, once.

Files:

- `php_value.dfy` (module `PhpValue`): PHP values, ordered arrays, array
  lookup, `isset`, and the list that `$a[] = ...` builds.
- `input_filter.dfy` (module `InputFilter`): the subject class `FileInput`
  (fields `value`, `isValid`, `autoPrependUploadValidator`, `validators`),
  the decorator class `HttpServerFileInputDecorator` with the four
  operations, and the functions that specify them.
- `input_filter_properties.dfy` (module `InputFilterProperties`): the
  lemmas about those functions and two client methods that chain calls.

The validator chain's verdict and the filter chain's transform belong to
other classes and are passed in as total functions (`ChainVerdict`,
`Filter`). So that "the filter is never called", "called once" and "stops
at the first failure" can be stated, `IsValid` and `GetValue` also return
the values they handed to the chain or to the filter (`validatorInputs`,
`filterInputs`), in call order.

The subject's `isValid` is three-valued, `Unset | Known(bool)`. Only
`Known(true)` is truthy in `getValue`'s test.

Some of the code's behaviour is easy to misread; the model follows the
code:

- `isEmptyFileDecorator([0 => x])` equals `isEmptyFileDecorator(x)` only for
  a non-null `x`. `isset` is false for a null entry, so `[0 => null]` is not
  empty, although `null` itself is (`SingleWrapperIsTransparent`).
- Both shape tests use `isset`, so a null `tmp_name` does not count. A null
  raw value becomes a placeholder whose `tmp_name` is null. Neither branch
  fires, and the stored verdict is kept (`NullIsUnrecognised`).
- The multi-file test looks at the entry with key `0`, which need not be the
  first entry. It checks only that entry. Every element is then validated,
  whatever its shape.
- The chain used for validation is the chain after the injection. The
  source fetches the chain object before injecting, but it is the same
  object that the injection prepends to.

## Model

| member | source | states |
|---|---|---|
| `InputFilterProperties.EmptyLeafIsEmpty` | src/HttpServerFileInputDecorator.php:74-80 | A non-array is empty. So is any array whose `error` entry is identically `UPLOAD_ERR_NO_FILE` (4), whatever its other keys. |
| `InputFilterProperties.SingleWrapperIsTransparent` | src/HttpServerFileInputDecorator.php:82-84 | `[0 => x]` is empty exactly when a non-null `x` is. `[0 => null]` is not empty, while `null` is. |
| `InputFilterProperties.EmptyUnwrapsToEmptyLeaf` | src/HttpServerFileInputDecorator.php:72-87 | An empty value reaches a non-array or a NO_FILE descriptor after peeling some number of `[0 => x]` wrappers. Proved by structural recursion, which is also what makes the function terminate. |
| `InputFilterProperties.EmptyLeafUnderWrappersIsEmpty` | src/HttpServerFileInputDecorator.php:82-84 | If peeling n wrappers reaches a non-array or a NO_FILE descriptor, the value is empty. |
| `InputFilterProperties.IsEmptyIffUnwrapsToEmptyLeaf` | src/HttpServerFileInputDecorator.php:72-87 | Both directions: a value is empty if and only if peeling wrappers reaches a non-array or a NO_FILE descriptor. Every other array gives false, including `[]`, multi-entry arrays and `[0 => null]`. |
| `InputFilter.HttpServerFileInputDecorator.GetValue` | src/HttpServerFileInputDecorator.php:41-64 | If `isValid` is not true, or the value is not an array, it returns the raw value and calls no filter. If it is valid with a non-null `tmp_name`, it returns `filter(value)` and calls the filter exactly once, on the whole descriptor. Otherwise it returns the list of `filter(e)` over the uploaded files, with keys 0, 1, ... |
| `InputFilter.HttpServerFileInputDecorator.FilterUploadedFiles` | src/HttpServerFileInputDecorator.php:53-59 | The loop filters exactly `UploadedFiles(entries)`, in order. It builds the list of their filtered values by appending. |
| `PhpValue.ListedIsList` | src/HttpServerFileInputDecorator.php:53-56 | Appending with `$a[] =` from `[]` gives keys 0..n-1 in order, with the appended values unchanged. |
| `InputFilterProperties.KeepValuesSelectsExactly` | src/HttpServerFileInputDecorator.php:54-58 | The kept values are the entries at strictly increasing positions. Those positions are exactly the ones whose value passes the test. The output is no longer than the input. |
| `InputFilterProperties.UploadedFilesSelectsExactly` | src/HttpServerFileInputDecorator.php:54-58 | `getValue` keeps, in order, exactly the elements that are arrays with a non-null `tmp_name`. It silently drops every other element and never lengthens the list. |
| `InputFilterProperties.UploadedFilesAreElements` | src/HttpServerFileInputDecorator.php:54-56 | Every value handed to the filter is an element of the array, and it is an array with a non-null `tmp_name`. |
| `InputFilter.Placeholder` | src/HttpServerFileInputDecorator.php:103-109 | The array literal that replaces a non-array raw value: an array of five entries. What each key reads is stated by `InputFilter.PlaceholderDescriptor`. |
| `InputFilter.PlaceholderDescriptor` | src/HttpServerFileInputDecorator.php:103-109 | The placeholder for a non-array `r` reads `tmp_name => r`, `name => r`, `size => 0`, `type => ''` and `error => UPLOAD_ERR_NO_FILE`. |
| `InputFilter.Normalize` | src/HttpServerFileInputDecorator.php:101-110 | The normalised value is always an array, and an array raw value is kept as it is. A non-array raw value `r` becomes a descriptor in which `tmp_name` and `name` read `r`, `size` reads 0, `type` reads `''` and `error` reads `UPLOAD_ERR_NO_FILE`. |
| `InputFilterProperties.ScalarIsValidatedAsSingleFile` | src/HttpServerFileInputDecorator.php:101-113 | A non-null, non-array raw value takes the single-file branch. Its placeholder is one that `isEmptyFileDecorator` calls empty. |
| `InputFilterProperties.NullIsUnrecognised` | src/HttpServerFileInputDecorator.php:101-123 | A null raw value matches neither branch, because its placeholder's `tmp_name` is null. |
| `InputFilter.HttpServerFileInputDecorator.IsValid` | src/HttpServerFileInputDecorator.php:93-126 | The chain is injected first. For a single-file shape, the chain is called once on the normalised value and its verdict is stored and returned. For a multi-file shape, the values go to the chain in `foreach` order, up to and including the first one it rejects. The stored result is true if and only if every element passes. In the unrecognised shape, no validator runs and `isValid` is kept. The value is unchanged. |
| `InputFilter.HttpServerFileInputDecorator.ValidateEach` | src/HttpServerFileInputDecorator.php:116-122 | The result is true if and only if the chain accepts every file. The chain sees exactly the prefix that ends at the first rejected file, so later files are never validated. |
| `InputFilter.FirstFailure` | src/HttpServerFileInputDecorator.php:117-121 | Every file before the returned position passes, and the file at that position, if any, fails. |
| `InputFilter.HttpServerFileInputDecorator.InjectUploadValidator` | src/HttpServerFileInputDecorator.php:131-149 | With the flag already false, it does nothing. Otherwise the chain becomes `PrependUpload` of the old chain and the flag becomes false. `value` and `isValid` are untouched. |
| `InputFilter.PrependUpload` | src/HttpServerFileInputDecorator.php:138-147 | The upload validator ends up at index 0. The old chain is kept, in order, as the suffix. An entry with break-on-failure is prepended only when the first validator is not already an upload validator. |
| `InputFilterProperties.PrependUploadIdempotent` | src/HttpServerFileInputDecorator.php:138-147 | Prepending twice is the same as prepending once. |
| `InputFilterProperties.PrependUploadAddsAtMostOne` | src/HttpServerFileInputDecorator.php:138-147 | Injection adds exactly one upload validator, or none when one is already first. |
| `InputFilterProperties.ValidateTwice` | src/HttpServerFileInputDecorator.php:131-149 | Two `isValid` calls in a row leave the chain prepended once, with exactly one auto-prepended upload validator. They return the same verdict. |
| `InputFilterProperties.ValidateThenGetValue` | src/HttpServerFileInputDecorator.php:41-126 | Unless a true verdict is already stored while the value has neither shape, every value the filter saw after `isValid` and `getValue` was handed to the chain in that pass and accepted. This covers `isValid` called twice before `getValue`, since a recognised shape overwrites the stored verdict. A verdict other than true means nothing is filtered. |
| `InputFilter.HttpServerFileInputDecorator.IsEmptyFileDecorator` | src/HttpServerFileInputDecorator.php:72-87 | No contract of its own. Its meaning is stated by `InputFilterProperties.IsEmptyIffUnwrapsToEmptyLeaf` (both directions), `EmptyLeafIsEmpty` and `SingleWrapperIsTransparent`. |
| `PhpValue.Isset` | src/HttpServerFileInputDecorator.php:48 | No contract of its own. `PhpValue.IssetIffFirstEntryNotNull` states what `isset($v[k])` means. |
| `PhpValue.IssetIffFirstEntryNotNull` | src/HttpServerFileInputDecorator.php:78-82 | Both directions: for an array `$v`, or a string key on a non-array, `isset($v[k])` holds exactly when `$v` is an array whose first entry with key `k` holds a non-null value. A missing key and a null value give false, and so does a string key such as `'tmp_name'` on a non-array. |
| `PhpValue.IssetNested` | src/HttpServerFileInputDecorator.php:114 | No contract of its own. It is `isset` on the value found at the first key, so a missing, null or non-array element at key 0 gives false. It is used by `ShapeOf`, whose cases are stated by `IsValid`, `ScalarIsValidatedAsSingleFile` and `NullIsUnrecognised`. |
| `InputFilter.ShapeOf` | src/HttpServerFileInputDecorator.php:111-114 | No contract of its own. It picks the branch of `isValid`. What each branch does is stated by `InputFilter.HttpServerFileInputDecorator.IsValid`, and which raw values reach which branch by `ScalarIsValidatedAsSingleFile` and `NullIsUnrecognised`. |
| `InputFilter.IsUploadedFile` | src/HttpServerFileInputDecorator.php:55 | No contract of its own. `InputFilterProperties.UploadedFilesSelectsExactly` and `UploadedFilesAreElements` state that `getValue` filters exactly the elements it accepts. |
| `InputFilter.FileInput.constructor` | src/HttpServerFileInputDecorator.php:43-44 | The subject starts with the given value and validator chain, with `isValid` unset and auto-prepend on. FileInput.php is not part of this model, so this is the assumed initial state. The decorator reads these fields at the cited lines and at lines 95-96 and 133. |
| `InputFilterProperties.StaleVerdictReachesFilter` | src/HttpServerFileInputDecorator.php:44-58 | A concrete case: a subject with a stored true verdict and the value `['a' => ['tmp_name' => 'x']]`. `isValid` hands nothing to the chain, because the value has neither shape, and `getValue` still filters the descriptor under `'a'`. This is the case `ValidateThenGetValue`'s precondition excludes. |
| `PhpValue.IndexOf` | src/HttpServerFileInputDecorator.php:78 | Array lookup finds the first entry with the key, or reports that no entry has it. |
| `InputFilter.HttpServerFileInputDecorator.constructor` | src/HttpServerFileInputDecorator.php:33-36 | The decorator holds the subject it was given. |

## Left out

- The validators (`Zend\Validator\File\UploadFile`, `is_uploaded_file`) and the filter chain's own behaviour are foreign classes. They enter as the parameters `validate` and `filter`. The model records what each is handed, not what it does.
- The plugin-manager lookup of `'fileuploadfile'` and its empty options array are not modelled. Prepending is modelled as putting the entry `UploadEntry` in front: the upload kind, with break-on-failure set.
- `instanceof UploadValidator` is modelled as "the entry's kind is `UploadFile`". Subclasses of the upload validator are not modelled.
- `$context` is an opaque `Value` that is passed through to the chain unchanged.
- The inheritance from `FileInput` / `FileInputDecoratorInterface` is not modelled. The decorator holds its subject by reference instead.
- FileInput.php is not part of this model. The subject's initial state (`isValid` unset, auto-prepend on) is assumed. Its other members (`setValue`, the filter and validator chain objects) are not modelled. Whether `setValue` resets `isValid` is unknown. For that reason `ValidateThenGetValue` excludes a stored true verdict on a value of neither shape: that shape keeps the stale verdict (`StaleVerdictReachesFilter`).
- `IsValid` runs the multi-file loop through `ValidateEach` and then stores the verdict. The source writes `isValid` inside the loop. When every call to the chain returns, the final state is the same.
- Exceptions thrown by the validator chain's `isValid` or the filter chain's `filter` are not modelled. In the source, one thrown inside the multi-file loop leaves the subject's `isValid` at the true written before the loop.
- PHP values are modelled without floats, objects and resources. Floats and resources behave like any other non-array. Objects do not: `isset($rawValue[0]['tmp_name'])` on an `ArrayAccess` object at key 0 calls its `offsetExists`, which can select the multi-file branch. The model's lookup finds nothing in a non-array, so such a value is classed as neither shape.
- Integer offsets into strings are not modelled: PHP's `isset("ab"[0])` is true, while the model's lookup finds nothing in a non-array. The decorator only indexes a non-array with the string key `'tmp_name'`, for which PHP's `isset` is false too.
- Array keys are assumed already normalised (`"0"` is stored as `0`). PHP arrays cannot hold a key twice, and lookup takes the first matching entry.
- HTTP and `$_FILES` population, AJAX transport and file-system effects are I/O outside this class.
