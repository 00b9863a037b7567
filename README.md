# vak: config section dispatch and spectrogram windowing, in Dafny

This project models two small parts of vak, a toolkit for annotating
vocalizations with neural networks, and proves properties of them.

**Config dispatch** (`ConfigParse`, in `config_parse.dfy`). `from_toml`
takes a parsed `config.toml` document: a map from section name to a map of
options. It does four things in order:

- It validates the sections.
- It rejects two combinations of sections:
  - TRAIN together with LEARNCURVE;
  - TRAIN together with a PREP section that sets `test_set_duration`.
- For each requested section that the document has, it validates the
  section's options and runs its parser. Without a `sections` argument the
  requested sections are the seven keys of `SECTION_PARSERS`.
- It stores each parsed value under the lower-cased section name and builds
  a `Config`. Attributes that were not filled keep their class defaults.

The validators, the parsers and the two default instances belong to modules
outside this model. They are passed in as a `Collaborators` value, so every
property holds whatever they do. `FromToml` is the imperative loop. Its
specification `FromTomlOutcome` is written through `Run`, a fold of one loop
step over the requested sections. Besides the result (a `Config` or the
error raised), the method returns the trace of collaborator calls. The
trace lets the model state the order of validation and parsing.

**Windowing** (`Transforms`, in `transforms.dfy`). `pad_to_window`
right-pads a spectrogram with `padval` to the next multiple of the window
size. When asked for, it also returns a boolean crop vector that marks the
original columns. It is modelled as a method over `array2` and `array`,
proved against the value-level `Padded` and `CropVec`.
`reshape_to_window` is numpy's row-major `reshape((-1, height,
window_size))`. It is modelled as a function that is `None` where numpy
raises. It is defined as two cuts of the flattened grid, and the index
formula is proved as a lemma.

`wrappers.dfy` holds the `Option` type both modules use.

## Model

| member | source | states |
|---|---|---|
| ConfigParse.FromToml | src/vak/config/parse.py:61-114 | The method returns the `Config`, or raises the error, that the specification `FromTomlOutcome` gives. The trace of collaborator calls it returns is the specification's trace. |
| ConfigParse.CrossSectionError | src/vak/config/parse.py:89-103 | The error of the two cross-section checks, TRAIN/LEARNCURVE first: it is that error exactly when both sections are present; the test_set_duration error exactly when TRAIN and PREP.test_set_duration are present without LEARNCURVE; and none otherwise. |
| ConfigParse.Name | src/vak/config/parse.py:51-57 | The `SECTION_PARSERS` key of each section, the name of its table in the document. |
| ConfigParse.AttrName | src/vak/config/parse.py:40-47 | The `Config` attribute that holds each section. |
| ConfigParse.DefaultAttr | src/vak/config/parse.py:40-47 | The default each `Config` attribute declares: the two default instances, and None for the five optional attributes. |
| ConfigParse.Selected | src/vak/config/parse.py:108-109 | A section is parsed when it is among the requested sections and the document has its table. |
| ConfigParse.Candidates | src/vak/config/parse.py:106-107 | The sections the loop walks: the requested list, or the `SECTION_PARSERS` keys in table order when `sections` is None. |
| ConfigParse.Step | src/vak/config/parse.py:109-112 | One iteration: a section absent from the document changes nothing. Otherwise `are_options_valid` is called and may raise; then the parser is called and may raise; on success its value is stored under the lower-cased name. |
| ConfigParse.Run | src/vak/config/parse.py:108-112 | The loop from a given state over the remaining sections, one `Step` each, stopping at the first raised error. |
| ConfigParse.FromTomlOutcome | src/vak/config/parse.py:87-114 | The specification of `from_toml`: the sections check, then the two cross-section checks, then the loop from an empty dictionary, then `Config(**config_dict)`; with the collaborator calls made. |
| ConfigParse.MakeConfig | src/vak/config/parse.py:114 | `Config(**config_dict)`: each attribute from the dictionary entry of its name, or the default declared at parse.py:40-47. |
| ConfigParse.Lower | src/vak/config/parse.py:112 | `str.lower` on ASCII: same length, each upper-case letter mapped to its lower-case letter, every other character unchanged. |
| ConfigParse.TrainWithLearncurveRejected | src/vak/config/parse.py:89-95 | A document with both TRAIN and LEARNCURVE is rejected whatever `sections` is. When the sections are valid, the error is the TRAIN/LEARNCURVE error. Only `are_sections_valid` was called: no option check and no parser ran. |
| ConfigParse.TestSetDurationRejected | src/vak/config/parse.py:97-103 | TRAIN together with `PREP.test_set_duration` is rejected whatever `sections` is. It is that error when the sections are valid and LEARNCURVE is absent. No section was parsed. |
| ConfigParse.FromTomlSucceedsIff | src/vak/config/parse.py:87-114 | A `Config` is returned if and only if all of these hold: the sections are valid; neither cross-section rule is broken; every requested and present section passes option validation; and every such section's parser succeeds. |
| ConfigParse.FromTomlFillsSelected | src/vak/config/parse.py:105-114 | In a returned `Config`, each section's attribute is its parser's value when the section is requested and present. Otherwise it is the class default. |
| ConfigParse.FromTomlCallOrder | src/vak/config/parse.py:87-112 | `are_sections_valid` is the first call. Every parser call comes right after the `are_options_valid` call for the same section, and only for a section whose option check passed. |
| ConfigParse.FromTomlErrorCause | src/vak/config/parse.py:87-112 | `InvalidSections` is raised exactly when `are_sections_valid` raises. A cross-section error is raised exactly when the sections are valid and one of the two rules is broken. A loop error names a requested, present section, states which of its two calls raised, and that call is the last collaborator call made. |
| ConfigParse.DefaultCandidatesAreTable | src/vak/config/parse.py:106-107 | Without `sections`, the sections tried are the seven `SECTION_PARSERS` keys in the table order of parse.py:50-58 (the constant `SectionParsers`). Every section occurs, and none occurs twice. |
| ConfigParse.LowerNameIsAttrName | src/vak/config/parse.py:112 | Lower-casing a section's table name gives the name of its `Config` attribute. |
| ConfigParse.AttrNameInjective | src/vak/config/parse.py:40-47 | Two sections share a `Config` attribute only if they are the same section. |
| ConfigParse.EmptyConfigIsDefault | src/vak/config/parse.py:40-47 | `Config()` has the default instances for `spect_params` and `dataloader` and None for the other five attributes. |
| ConfigParse.MakeConfigAttr | src/vak/config/parse.py:114 | Each attribute of `Config(**config_dict)` is the dictionary's entry under the attribute name, or the class default when there is no entry. |
| ConfigParse.RunFillsSelected | src/vak/config/parse.py:108-112 | When the loop ends without an error, `config_dict` has an entry for a section if and only if the section was requested and is present. That entry is the parser's value. No other key is set. |
| ConfigParse.RunSucceedsIff | src/vak/config/parse.py:108-112 | The loop ends without an error if and only if every requested and present section validates and parses. A raised error names a requested, present section and its cause: `InvalidOptions` means its option check failed and that check was the last call; `ParseFailed` means the check passed, the parser raised, and the parser call was the last call. |
| ConfigParse.RunKeepsCallOrder | src/vak/config/parse.py:108-112 | The loop only appends to the call trace. It keeps every parser call right after the option check for its section, and parses only sections whose check passed. |
| Transforms.CeilDiv | src/vak/transforms/functional.py:74 | `ceil(w / ws)` for a positive window size, in integer arithmetic. |
| Transforms.Padded | src/vak/transforms/functional.py:76-77 | The padded spectrogram as a value: each row followed by TargetWidth - w copies of `padval`. |
| Transforms.CropVec | src/vak/transforms/functional.py:80-81 | The crop vector as a value: w entries true followed by TargetWidth - w entries false. |
| Transforms.CropRow | src/vak/transforms/functional.py:53-59 | `row[mask]`: the cells of a row where the mask is true, in order. |
| Transforms.Crop | src/vak/transforms/functional.py:53-59 | `spect[:, mask]`: every row cropped by the mask. |
| Transforms.Flatten | src/vak/transforms/functional.py:102 | numpy's C-order flattening: the rows concatenated. |
| Transforms.Chunks | src/vak/transforms/functional.py:102 | A sequence cut into consecutive pieces of n: length-of-s / n pieces of n elements each. |
| Transforms.ShapeAccepted | src/vak/transforms/functional.py:102 | numpy's test for `reshape((-1, h, ws))` of h * w cells: h * ws is non-zero and divides h * w, which holds exactly when h > 0, ws > 0 and ws divides w. |
| Transforms.TargetWidth | src/vak/transforms/functional.py:72-75 | The padded width is a multiple of the window size. It is at least the width and less than the width plus one window. |
| Transforms.TargetWidthIsLeast | src/vak/transforms/functional.py:73-75 | No multiple of the window size that is at least the width is smaller than the padded width. |
| Transforms.AlignedWidthUnchanged | src/vak/transforms/functional.py:73-75 | A width that is already a multiple of the window size is its own padded width. |
| Transforms.PaddedCells | src/vak/transforms/functional.py:76-77 | The padded spectrogram has the input's height and the padded width. Cell (i, j) is the input's cell for j below the width, and `padval` after it. |
| Transforms.PaddedAlignedIsIdentity | src/vak/transforms/functional.py:73-77 | When the width is a multiple of the window size, padding returns the input unchanged. |
| Transforms.CropVecMarksOriginal | src/vak/transforms/functional.py:79-81 | The crop vector is as long as the padded width. It is true exactly at the indices below the original width, so it has that many true entries. |
| Transforms.CropUndoesPad | src/vak/transforms/functional.py:53-59 | Keeping the padded spectrogram's columns where the crop vector is true gives back the original spectrogram. |
| Transforms.PadToWindow | src/vak/transforms/functional.py:39-84 | The method returns a fresh array whose rows are `Padded` of the input. A fresh crop vector equal to `CropVec` is returned exactly when `return_crop_vec` is true. |
| Transforms.ReshapeToWindow | src/vak/transforms/functional.py:101-102 | The reshape succeeds exactly when the height and window size are positive and the width is a multiple of the window size. It then has width / window_size blocks, each height rows by window_size columns. |
| Transforms.ReshapeKeepsCells | src/vak/transforms/functional.py:101-102 | Flattening the reshape gives the row-major flattened input: no cell is lost, added or moved in that order. |
| Transforms.ReshapeAt | src/vak/transforms/functional.py:101-102 | Cell (k, i, j) of the reshape lies within the block shape. It is element `k*h*ws + i*ws + j` of the row-major flattened input. |
| Transforms.FlattenAt | src/vak/transforms/functional.py:102 | Element `r*w + c` of the row-major flattening is cell (r, c) of the grid. |
| Transforms.PaddedCanBeReshaped | src/vak/transforms/functional.py:73-77 | For a spectrogram with at least one row, the output of `pad_to_window` always has a shape the reshape accepts. |
| Transforms.ColumnWindows | src/vak/transforms/functional.py:87-89 | The "consecutive windows" the docstrings describe: width / window_size windows, each with all the spectrogram's rows. |
| Transforms.ColumnWindowsAt | src/vak/transforms/functional.py:87-89 | Cell (i, j) of window k is the spectrogram's cell (i, k*ws + j): window k holds columns k*ws up to k*ws + ws - 1. |
| Transforms.ReshapeOfOneRowIsColumnWindows | src/vak/transforms/functional.py:87-102 | For a one-row spectrogram, the row-major reshape equals the column windows. |
| Transforms.ReshapeMixesRows | src/vak/transforms/functional.py:87-102 | For [[0,1,2,3],[4,5,6,7]] with windows of 2, window 0 of the reshape holds cell 2, where the column window holds cell 4. The two results differ. |

## Left out

- `from_toml_path` and `_load_toml_from_path` (src/vak/config/parse.py:117-160) are not modelled: they check that a file exists and call the third-party TOML decoder.
- `toml_path` is dropped from `FromToml`: the source passes it on to collaborators only to word error messages.
- `sections` as a single string is not modelled: it is a list of `Section` values. For a string, the loop at parse.py:108 walks its characters.
- Section names are the `Section` datatype. A requested name outside the seven `SECTION_PARSERS` keys is excluded by typing. So is the `KeyError` such a name raises at parse.py:111 when the document has that table.
- `are_sections_valid`, `are_options_valid`, the seven `parse_*_config` parsers and the two default instances are parameters (`Collaborators`): their modules are not part of this model. `from_toml` discards the validators' return values: a validator either returns or raises, and `sectionsValid` / `optionsValid` are false exactly when it raises. A parser that raises is `None`.
- The parsed section values share one type parameter `S`. The attrs `instance_of` validators on `Config` are runtime type checks and are not modelled.
- Exception messages are not modelled: an error is a `ConfigError` constructor.
- `Lower` lower-cases ASCII letters only, which covers the seven table names. Python's full Unicode `str.lower` is not modelled.
- Transforms.PadToWindow: requires a positive window size. With 0 the source raises `ZeroDivisionError`. Window sizes are `nat`, so the source's behaviour for negative sizes is not modelled.
- Transforms.TargetWidth: uses integer ceiling division. The source computes `np.ceil` on a float quotient, which agrees for widths below 2^53.
- The padded array's float64 dtype is not modelled: cells keep the input's generic type `T`, and `padval` is a `T`. The model also assumes a numpy where `np.bool` still names the boolean dtype.
- `return_crop_vec=False` returns a bare array in the source and `(padded, None)` here.
- The defaults `padval=0.` and `return_crop_vec=True` of `pad_to_window` (src/vak/transforms/functional.py:39) are not modelled: `PadToWindow` takes both as arguments, and a generic `T` has no `0.`.
- Transforms.ReshapeToWindow: returns a new value. numpy's `reshape` returns a view that shares memory with the input, and that aliasing is not modelled.
- `standardize_spect`, `to_floattensor`, `to_longtensor` and `add_channel` (src/vak/transforms/functional.py:13-36, 105-153) are not modelled: they are floating-point arithmetic and thin torch wrappers.

## Findings

| source | as written | input that shows it | evidently intended | confidence | as-written member | corrected member |
|---|---|---|---|---|---|---|
| src/vak/transforms/functional.py:87-102 | `spect.reshape((-1, spect_height, window_size))` cuts the row-major flattened spectrogram. With more than one row, a "window" holds consecutive cells of one row and then the next row, not the same columns of every row. | spect = [[0,1,2,3],[4,5,6,7]], window_size = 2: window 0 is [[0,1],[2,3]]. | Window k holds columns k*ws up to k*ws + ws - 1 of every row, here [[0,1],[4,5]]. This is what "consecutive windows" of time bins describes. The two agree when the height is 1. | medium; not executed | Transforms.ReshapeMixesRows | Transforms.ColumnWindows |
