# VOCAL tool buttons, byteify and PolygonWriter in Dafny

This project models three small pieces of the VOCAL annotation tool for
CALIPSO lidar data, and proves what their code promises.

- **Mutually exclusive tool buttons** (gui/tools.py).
  - Every ToggleableButton and ToolbarToggleableButton appends itself to one
    shared container. Toggling a button forces off every other button that is
    on, so at most one tool is active at a time.
  - A ToggleableButton binds the keys latched into its bind map when it goes
    on. When it goes off, or is forced off, it unbinds them and calls its
    destructor.
  - A toolbar button calls its function and sets the root window's cursor.
  - The same file holds the tooltip's show/hide state and `center`, which reads
    a window's size from its "WxH+X+Y" geometry string and writes back a
    geometry that centres the window.
- **`byteify` and `center`** (calipso/tools/tools.py).
  - `byteify` turns every unicode string inside a JSON-like value into its
    UTF-8 bytes. The encoding follows section 3 of RFC 3629.
  - `center` writes the centring geometry for a given size.
- **PolygonWriter** (gui/PolygonWriter.py): a key–value store of polygons with
  a file name, a plot type and an HDF file name. It is written to a named file
  and read back from it.

Layout:

- `wrappers.dfy`: Option and Result.
- `utf8.dfy`: the UTF-8 encoder, a strict decoder, and round trips both
  ways.
- `geometry.dfy`: Python's `"%d"`, `int()`, one-character `split`, the size
  part and the position part of a geometry string, and the floor-division
  centring offset.
- `py_values.dfy`: the Python values `byteify` walks. A dict is its list of
  entries in iteration order, and `d[k] = v` is `Insert`.
- `calipso_tools.dfy`: `byteify` and the two-argument `center`.
- `gui_tools.dfy`:
  - a `Gui` object holding the shared `toggleContainer` and a log of every
    effect outside the buttons (key binds and unbinds, calls of latched
    callables, cursor changes, tooltip windows opened and destroyed);
  - one `ToggleButton` class for both button classes;
  - `ToolTip`, and the one-argument `center`.
- `polygon_writer.dfy`: `PolygonWriter`, and a `FileSystem` object that maps
  each file name to the dict its JSON document holds.

Modelling decisions:

- **One class for both buttons.** The two Python button classes share their
  state and their part in the container. They become one class,
  `ToggleButton`, whose constant `kind` is `Plain` (a ToggleableButton) or
  `Toolbar(func)` (a ToolbarToggleableButton). The named constructors
  `Toggleable` and `ToolbarToggleable` create the two kinds. Latch takes
  only a cursor on a toolbar button, as that class's `latch` does.
- **Relief and the `buttons` set.** The relief the code sets with `config` is
  a field of the button. Beside the container, the `Gui` keeps a ghost set
  `buttons` of the same buttons, used for frames. `Gui.Valid()` states four
  things:
  - the set and the container agree;
  - no button occurs twice in the container, since each constructor appends
    the new button once;
  - a button is sunken exactly when it is toggled;
  - no two buttons are toggled.
- **Python dicts.** A PolygonWriter's `Valid()` states that its dict has
  distinct keys, none of them a dict or a list, as every Python dict has. A
  FileSystem's `Valid()` states the same of every stored document: each stored
  document is a JSON object as `json.load` reads it. The FileSystem constructor
  takes only such files, and `add`, `encode` and `decode` keep both invariants.
- **Order inside `toggle`.** The source flips the button's own flag first and
  then forces the other toggled buttons off. The model forces the others off
  first and then flips the flag. Neither reads the other's state: the list of
  others excludes the button itself, and another button's `unToggle` does not
  touch it. So the buttons and the effect log end the same.

## Model

| member | source | states |
|---|---|---|
| GuiTools.ToggledOthers | gui/tools.py:112 | The buttons the comprehension selects: every element is a toggled button of the container other than `self`, and every toggled button of the container other than `self` is among them. |
| GuiTools.ToggledOthersCount | gui/tools.py:112 | The selection keeps each toggled button other than `self` exactly as often as the container holds it, and no other button of the container. |
| GuiTools.Gui.ToggledOnce | gui/tools.py:112 | In a valid container, which holds no button twice, the selection lists each toggled button other than `self` exactly once, and no other button. |
| GuiTools.Gui.constructor | gui/tools.py:11 | The shared container starts empty, and nothing has happened outside the buttons. The container is valid, as the button constructors require. |
| GuiTools.Gui.OthersOffValid | gui/tools.py:108-125 | When every button other than `self` is off and raised, and `self` is sunken exactly when toggled, at most one button is toggled and the container is valid. |
| GuiTools.Gui.UnToggleNext | gui/tools.py:112-113 | One turn of the forcing-off loop: the i-th listed button is off and raised, the others listed so far stay off, the unlisted ones keep their state, and its unToggle effects are appended to the log. |
| GuiTools.Gui.UnToggleAll | gui/tools.py:112-113 | Calling unToggle on each listed button in turn: each listed button ends off and raised, every other button keeps its flag and relief, and the log grows by each listed button's unToggle effects in list order. |
| GuiTools.Gui.UnToggleOthers | gui/tools.py:112-113 | Every button except `self` ends off and raised, and `self` is untouched. The log grows by exactly the unToggle effects of the buttons that were toggled beforehand, so a button already off gets no unbind, destructor or func call. |
| GuiTools.Gui.UnlistedAreOff | gui/tools.py:112 | In a valid container, `self` is never selected, and every unselected button other than `self` is already off and raised. |
| GuiTools.ToggleButton.Toggleable | gui/tools.py:72-82 | A new ToggleableButton is off and raised, with an empty bind map, cursor "" and no destructor. It is appended to the shared container, which stays valid. |
| GuiTools.ToggleButton.ToolbarToggleable | gui/tools.py:137-146 | A new ToolbarToggleableButton is off and raised, with cursor "" and the given func. It is appended to the shared container, which stays valid. |
| GuiTools.ToggleButton.Latch | gui/tools.py:89-150 | Both latches (lines 89-93 and 148-150); a toolbar button takes only a cursor. The cursor changes only to a non-empty cursor, and the destructor only to one that is given. The bind map grows by the one entry (root, key, command) exactly when the key is non-empty and a command is given; otherwise it is unchanged. |
| GuiTools.ToggleButton.UnToggle | gui/tools.py:97-157 | Both unToggles (lines 97-102 and 154-157). The button ends off and raised whatever its prior state. A ToggleableButton unbinds every bind-map entry in order and then calls its destructor if one is set. A toolbar button calls its func if set and leaves the cursor alone. A valid container stays valid. |
| GuiTools.ToggleButton.Toggle | gui/tools.py:108-175 | Both toggles (lines 108-125 and 160-175). The flag is negated, and the button is sunken exactly when now on. From off it becomes the only button on; from on, no button is on; the container stays valid. The log grows first by what unToggle did to each button toggled beforehand, then by the button's own effects. A ToggleableButton binds every bind-map entry in order when it goes on, and unbinds them and calls its destructor when it goes off. A toolbar button calls its func once either way, then sets the root cursor to the latched cursor when on and to "" when off. |
| GuiTools.ToolTip.constructor | gui/tools.py:16-19 | No tip is shown, no text has been set, and x and y are 0. |
| GuiTools.ToolTip.ShowTip | gui/tools.py:22-42 | The text is always remembered. With a tip already shown, or with empty text, nothing else happens. Otherwise a tip with the text opens at the box's corner plus the widget's screen position, shifted by 27 in x and in y (the y part also adds the box's height), and its "+X+Y" geometry is logged. |
| GuiTools.ToolTip.HideTip | gui/tools.py:44-48 | Afterwards no tip is shown. A tip that was shown is destroyed, and otherwise nothing is logged. |
| GuiTools.Center | gui/tools.py:228-235 | Centring succeeds exactly when the geometry's size part reads as exactly two numbers. The geometry it writes reads back as the same size, and its position reads back as (w/2 - W/2, h/2 - H/2) with floor division, for screen size (w, h) and window size (W, H). The result is exactly the string `"%dx%d+%d+%d"` writes for W, H and those offsets. |
| GuiTools.CenterIdempotent | gui/tools.py:228-235 | Centring a window that was just centred sets the same geometry again. |
| GuiTools.CenterAgrees | gui/tools.py:228-235 | This `center` is the two-argument `center` of calipso/tools/tools.py applied to the size it reads from the geometry, with the same errors. |
| Geometry.FormatInt | gui/tools.py:235 | `"%d"` writes a non-empty string of decimal digits, with a leading '-' only, ending in a digit, and no surrounding whitespace. |
| Geometry.ParseFormatInt | gui/tools.py:232-235 | `int()` reads back exactly the number `"%d"` wrote. |
| Geometry.Split | gui/tools.py:232 | Splitting at one character gives at least one piece, no piece contains the separator, and joining the pieces with it gives back the string. |
| Geometry.ParseAll | gui/tools.py:232 | Reading the pieces as numbers succeeds exactly when every piece is a number. The result has one number per piece, each the piece's value, and a failure is ValueError. |
| Geometry.PositionRoundTrip | gui/tools.py:235 | Reading the position back from a geometry written as "WxH+X+Y" gives (X, Y) for any integers W, H, X and Y. |
| Geometry.ParseInt | gui/tools.py:232 | A definition: Python 2 `int()` on a byte string, with surrounding white space skipped, an optional sign and at least one digit, and None for ValueError. Its meaning is fixed by ParseFormatInt. |
| Geometry.ParseSize | gui/tools.py:232 | A definition: the text before the first '+', split at each 'x', each piece converted with `int()`. Its meaning is fixed by SizeRoundTrip. |
| Geometry.ParsePosition | gui/tools.py:235 | A definition: the second and third '+'-separated pieces converted with `int()`, IndexError when they are missing. It reads back the "+%d+%d" part the two `center`s write, and its meaning is fixed by PositionRoundTrip. |
| Geometry.FormatGeometry | gui/tools.py:235 | A definition: `"%dx%d+%d+%d"` of width, height, x and y, also written at calipso/tools/tools.py:21. Its meaning is fixed by SizeRoundTrip and PositionRoundTrip. |
| Geometry.FormatPosition | gui/tools.py:31 | A definition: `"+%d+%d"` of the tooltip's x and y, each written as FormatInt writes it, whose reading back ParseFormatInt fixes. |
| Geometry.SizeRoundTrip | gui/tools.py:232-235 | Reading the size back from a geometry written as "WxH+X+Y" gives (W, H) for any integers W, H, X and Y. |
| Geometry.CenterOffset | gui/tools.py:233-234 | The offset computed with floor division puts the window's centre within half a pixel of the screen's centre. |
| Utf8.EncodeChar | calipso/tools/tools.py:34 | One character takes 1 to 4 bytes as section 3 of RFC 3629 fixes by its code point. The lead byte lies in the range for that length, and every later byte is a continuation byte. |
| Utf8.Encode | calipso/tools/tools.py:34 | The encoding of a string is at least one byte and at most four bytes per character. |
| Utf8.DecodeEncode | calipso/tools/tools.py:34 | Decoding the UTF-8 encoding of a string gives the string back. |
| Utf8.EncodeDecode | calipso/tools/tools.py:34 | A byte string that decodes is the encoding of the string it decodes to. |
| Utf8.EncodeInjective | calipso/tools/tools.py:34 | Distinct unicode strings have distinct encodings. |
| PyValues.Insert | gui/PolygonWriter.py:35 | Assigning a key adds it to the keys and nothing else. Every resulting entry is an old entry or (k, v), and a new key goes at the end. |
| PyValues.InsertLookup | gui/PolygonWriter.py:35 | After `d[k] = v`, k finds v and every other key finds what it found before. |
| PyValues.InsertKeepsKeysDistinct | gui/PolygonWriter.py:35 | Assigning a key keeps a dict's keys distinct. |
| PyValues.FromPairs | calipso/tools/tools.py:30 | The dict built by a comprehension has distinct keys, exactly the keys of the pairs, and only entries taken from the pairs. |
| PyValues.FromPairsLookup | calipso/tools/tools.py:30 | A key of the built dict finds the value of the last pair with that key, so a later pair wins. |
| PyValues.FromPairsOfDict | calipso/tools/tools.py:30 | Pairs whose keys are already distinct build exactly themselves, in order. |
| CalipsoTools.Byteify | calipso/tools/tools.py:23-36 | A dict stays a dict and a list a list of the same length, and the result is never a unicode string. |
| CalipsoTools.ByteifyUnicode | calipso/tools/tools.py:33-34 | A unicode string becomes a byte string that decodes back to that text. |
| CalipsoTools.ByteifyDictLookup | calipso/tools/tools.py:29-30 | A key of the converted dict finds the converted value of the last entry whose converted key it is. |
| CalipsoTools.ByteifyDictEntries | calipso/tools/tools.py:29-30 | When the converted keys stay distinct, the converted dict's entries are exactly the converted entries, in order. |
| CalipsoTools.ByteifyKeysCollide | calipso/tools/tools.py:29-34 | Two scalar keys convert to the same key exactly when they are equal, or one is a unicode string and the other is its UTF-8 byte string. |
| CalipsoTools.ByteifyClean | calipso/tools/tools.py:29-36 | The result holds no unicode string at any depth, and every dict in it has distinct keys. |
| CalipsoTools.ByteifyFixedPoint | calipso/tools/tools.py:29-36 | A value with no unicode string, whose dicts have distinct keys, is a fixed point. |
| CalipsoTools.ByteifyFixedPoints | calipso/tools/tools.py:29-36 | The fixed points are exactly the values with no unicode string whose dicts have distinct keys. |
| CalipsoTools.ByteifyIdempotent | calipso/tools/tools.py:29-36 | Converting twice is converting once. |
| CalipsoTools.Center | calipso/tools/tools.py:10-21 | A size with fewer than two entries fails with IndexError, and one with more than two fails with TypeError at the formatting. Exactly a two-entry size succeeds. The size read back from the written geometry is then the size given, unchanged, and the position read back is (w/2 - W/2, h/2 - H/2) with floor division. The result is exactly the string `"%dx%d+%d+%d"` writes for the size and those offsets. |
| Polygons.Store | gui/PolygonWriter.py:58-60 | A definition: `open(name, 'w')` plus `json.dump`, which fails with CannotWrite on a name that cannot be opened for writing and otherwise replaces that file's document. Its meaning is fixed by LoadStore, LoadStoreOther and StoreTwice. |
| Polygons.Load | gui/PolygonWriter.py:62-64 | A definition: `open(name)` plus `json.load`, the document stored under the name, or NoSuchFile. Its meaning is fixed by LoadStore, LoadStoreOther and StoreLoaded. |
| Polygons.LoadStore | gui/PolygonWriter.py:58-64 | Encode then decode against the file map restores the dict: what was stored under a name is what reading that name gives. |
| Polygons.LoadStoreOther | gui/PolygonWriter.py:58-60 | Storing under one name leaves what every other name reads unchanged. |
| Polygons.StoreTwice | gui/PolygonWriter.py:58-60 | Encoding twice with no change in between leaves the files as encoding once. |
| Polygons.StoreLoaded | gui/PolygonWriter.py:58-64 | Writing back a document just read changes no file. |
| Polygons.PolygonWriter.constructor | gui/PolygonWriter.py:16-23 | A new writer has the given file name ("polygons.json" by default), plot type 0, HDF file name "" and an empty dict. |
| Polygons.PolygonWriter.Add | gui/PolygonWriter.py:25-35 | A dict or list key is refused with the TypeError for an unhashable key, and the dict is left as it was. Otherwise the key finds the new value, replacing any earlier one with no merge, and every other key finds what it found before; the keys gain only this key. Either way the dict keeps distinct, hashable keys. Only the dict changes. |
| Polygons.PolygonWriter.SetJsonFile | gui/PolygonWriter.py:37-38 | Sets the file name and changes no other field. |
| Polygons.PolygonWriter.SetPlotType | gui/PolygonWriter.py:40-41 | Sets the plot type and changes no other field. |
| Polygons.PolygonWriter.SetHDFFile | gui/PolygonWriter.py:43-44 | Sets the HDF file name and changes no other field. |
| Polygons.PolygonWriter.GetJsonFile | gui/PolygonWriter.py:46-47 | Returns the current file name, so after SetJsonFile it returns the name set. |
| Polygons.PolygonWriter.GetPlotType | gui/PolygonWriter.py:49-50 | Returns the current plot type, so after SetPlotType it returns the value set. |
| Polygons.PolygonWriter.GetHDFFile | gui/PolygonWriter.py:52-53 | Returns the current HDF file name, so after SetHDFFile it returns the name set. |
| Polygons.PolygonWriter.GetDictionary | gui/PolygonWriter.py:55-56 | Returns the current dict, which reflects every `add` so far. |
| Polygons.PolygonWriter.Encode | gui/PolygonWriter.py:58-60 | Stores the whole current dict under the current file name, overwriting that file, and changes no writer field. A name that cannot be opened for writing fails with CannotWrite and changes no file. Every file still holds a dict with distinct, hashable keys. |
| Polygons.PolygonWriter.Decode | gui/PolygonWriter.py:62-64 | Replaces the dict wholesale with the document stored under the current file name, leaving the file name, plot type and HDF file name unchanged. A missing file fails with NoSuchFile and leaves the dict as it was. Either way the dict has distinct, hashable keys. |


## Left out

- Tk itself is left out:
  - the widgets and their `master`, `cnf` and `kw` arguments;
  - wiring each button's click to its `toggle`;
  - `Toplevel`, `Label` and `wm_overrideredirect`;
  - the Mac-only `TclError` fallback in `showTip`;
  - `update_idletasks`.

  The widget's box, its screen position, the screen size and the window's
  geometry string are parameters.
- `createToolTip` (gui/tools.py:50-57) only binds the widget's enter and leave
  events to `showTip` and `hideTip`. Event dispatch is not modelled.
- `NavigationToolbar2CALIPSO` (gui/tools.py:180-226) is a matplotlib toolbar
  with float canvas coordinates, so it is left out.
- Latched callables are names in the effect log: what a key command, a
  destructor or a toolbar `func` does when called is not modelled. A callable
  that itself toggled a button would re-enter `toggle`, and the model does not
  cover that.
- A ToggleableButton's latched cursor is stored but never read, exactly as in
  the source. Only the toolbar button sets the root's cursor.
- GuiTools.ToggleButton.Toggle requires a valid container holding the button.
  The constructors establish this and every Toggle preserves it. The model does
  not cover a caller that breaks it from outside.
- `Catcher` (calipso/tools/tools.py:38-53) catches and logs exceptions, so it is
  left out.
- CalipsoTools.Center takes the size as a sequence of integers. The source's
  `size + (x, y)` needs a tuple: a list raises TypeError, and the model does
  not cover that.
- CalipsoTools.Byteify:
  - it takes a dict's iteration order from its entries' order, whereas Python
    2's hash order is unspecified;
  - Python 2 compares an ASCII unicode string equal to the same byte string,
    but the model keeps `Unicode` and `Str` apart.

  ByteifyKeysCollide states the collisions the model does see.
- PyValues.Value has no tuple, set or other object variant: it holds only what
  a JSON document decodes to, plus byte strings. Python's `byteify` returns a
  tuple unchanged with any unicode inside it, so ByteifyClean ("no unicode at
  any depth") and ByteifyFixedPoints hold only for these JSON-shaped values.
- Utf8.Encode: a Dafny `char` is a Unicode scalar value, so it cannot be a
  lone surrogate. Python 2 encodes a lone surrogate such as `u'\ud800'`, which
  `json.loads` can produce, to three bytes that Utf8.Decode rejects; that case
  is not modelled.
- PyValues.Value's floats are `real`, so NaN, the infinities and rounding are
  not modelled.
- The JSON text is not modelled. PolygonWriter.Encode and Decode work on a map
  from file names to the dicts their documents hold. The model therefore does
  not capture:
  - JSON's own changes to values: keys become unicode strings, byte strings
    become unicode;
  - files whose text is not a JSON object;
  - `json.dump` failing on a value it cannot serialise, which leaves the opened
    file truncated.
- Polygons.PolygonWriter.GetDictionary returns the dict's entries as a value.
  The source returns the dict object itself, so a caller that mutated it would
  change the writer; that aliasing is left out. Likewise `add` stores the
  caller's value object by reference, so mutating a list after `add(k, lst)`
  changes the writer's dict in Python, while a PyValues.Value is immutable.
- Polygons.PolygonWriter:
  - the plot type is an integer and the file names are strings, whereas
    Python accepts any value;
  - its dict, like Byteify's, takes its iteration order from the entries'
    order, whereas Python 2's hash order is unspecified;
  - keys are compared as model values. Python merges keys that compare equal,
    such as `1`, `True` and `1.0`, or `u"a"` and `"a"`, so
    `add(1, x); add(True, y)` leaves one entry where Insert keeps two;
  - the file map is a field of a FileSystem object rather than the disk.
- The other files of the repository are outside this model:
  - the HDF plotting code with its numpy and interpolation calls;
  - the import dialog with its ORM query;
  - the rest of the Tk application.
