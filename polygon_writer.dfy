/**
  gui/PolygonWriter.py: a store of drawn polygons keyed by name, with the
  plot type and HDF file they belong to, that is written to and read back from
  a named JSON file.

  The file system is a FileSystem object holding, for each file name, the
  dict its JSON document decodes to; the JSON text itself is not modelled.
 */
module Polygons {
  import opened Wrappers
  import opened PyValues

  /** The JSON object document stored under each file name. */
  type Files = map<string, Items>

  /** The IOError `open` raises. */
  datatype FileError = CannotWrite(name: string) | NoSuchFile(name: string)

  /** The TypeError `d[k] = v` raises for a key that is a dict or a list. */
  datatype AddError = Unhashable(key: Value)

  /** Whether a value can be a dict key: dicts and lists cannot. */
  predicate Hashable(k: Value) {
    !k.Dict? && !k.List?
  }

  /** Entries a Python dict can hold: no key twice, and every key hashable. */
  predicate WellFormed(d: Items) {
    DistinctKeys(d) && forall k :: k in Keys(d) ==> Hashable(k)
  }

  /** Every stored document is a dict a Python program could have written. */
  predicate AllWellFormed(files: Files) {
    forall name :: name in files ==> WellFormed(files[name])
  }

  /**
    Writing `d` to the file `name`: refused when the name cannot be opened for
    writing; otherwise `d` replaces whatever the file held, and every other
    file is left alone.
   */
  function Store(files: Files, readOnly: set<string>, name: string, d: Items): Result<Files, FileError> {
    if name in readOnly then Failure(CannotWrite(name)) else Success(files[name := d])
  }

  /** Reading the file `name`: its document, or an error when there is no such file. */
  function Load(files: Files, name: string): Result<Items, FileError> {
    if name in files then Success(files[name]) else Failure(NoSuchFile(name))
  }

  /** What was stored under a name is what is read back from it. */
  lemma LoadStore(files: Files, readOnly: set<string>, name: string, d: Items)
    requires name !in readOnly
    ensures Store(files, readOnly, name, d).Success?
    ensures Load(Store(files, readOnly, name, d).value, name) == Success(d)
  {
  }

  /** Storing under one name does not change what any other name reads. */
  lemma LoadStoreOther(files: Files, readOnly: set<string>, name: string, other: string, d: Items)
    requires Store(files, readOnly, name, d).Success? && other != name
    ensures Load(Store(files, readOnly, name, d).value, other) == Load(files, other)
  {
  }

  /** Storing the same document twice leaves the files as storing it once. */
  lemma StoreTwice(files: Files, readOnly: set<string>, name: string, d: Items)
    ensures Store(files, readOnly, name, d).Success? ==>
      Store(Store(files, readOnly, name, d).value, readOnly, name, d) == Store(files, readOnly, name, d)
  {
    assert files[name := d][name := d] == files[name := d];
  }

  /** Writing back a document just read changes no file. */
  lemma StoreLoaded(files: Files, readOnly: set<string>, name: string)
    requires Load(files, name).Success? && name !in readOnly
    ensures Store(files, readOnly, name, Load(files, name).value) == Success(files)
  {
    assert files[name := files[name]] == files;
  }

  /** The files the writers read and write. */
  class FileSystem {
    var files: Files
    /** The names `open(name, 'w')` refuses. */
    const readOnly: set<string>

    /** Every document on disk is a JSON object, which `json.load` reads as a dict. */
    ghost predicate Valid()
      reads this`files
    {
      AllWellFormed(files)
    }

    constructor (files: Files, readOnly: set<string>)
      requires AllWellFormed(files)
      ensures Valid()
      ensures this.files == files && this.readOnly == readOnly
    {
      this.files := files;
      this.readOnly := readOnly;
    }
  }

  class PolygonWriter {
    var fileName: string
    var plotType: int
    var hdf: string
    /** The polygons stored so far, as the dict's entries in iteration order. */
    var dict: Items

    /** The dict is a Python dict: distinct, hashable keys. */
    ghost predicate Valid()
      reads this`dict
    {
      WellFormed(dict)
    }

    /** A writer for `fileName` ("polygons.json" unless given), plot type 0, no HDF file and no polygons. */
    constructor (fileName: string := "polygons.json")
      ensures Valid()
      ensures this.fileName == fileName && plotType == 0 && hdf == "" && dict == []
    {
      this.fileName := fileName;
      plotType := 0;
      hdf := "";
      dict := [];
    }

    /**
      Stores `value` under `key`, replacing any earlier value rather than
      merging with it; every other key keeps its value. A dict or list key
      is refused and the dict is left as it was.
     */
    method Add(key: Value, value: Value) returns (r: Result<(), AddError>)
      requires Valid()
      modifies this`dict
      ensures Valid()
      ensures r.Failure? <==> !Hashable(key)
      ensures r.Failure? ==> dict == old(dict) && r.error == Unhashable(key)
      ensures r.Success? ==> dict == Insert(old(dict), key, value)
      ensures r.Success? ==> Lookup(dict, key) == Some(value)
      ensures r.Success? ==> forall k :: k != key ==> Lookup(dict, k) == Lookup(old(dict), k)
      ensures r.Success? ==> Keys(dict) == Keys(old(dict)) + {key}
    {
      if !Hashable(key) {
        return Failure(Unhashable(key));
      }
      ghost var before := dict;
      dict := Insert(dict, key, value);
      forall k
        ensures Lookup(dict, k) == if k == key then Some(value) else Lookup(before, k)
      {
        InsertLookup(before, key, value, k);
      }
      InsertKeepsKeysDistinct(before, key, value);
      r := Success(());
    }

    method SetJsonFile(fileName: string)
      modifies this`fileName
      ensures this.fileName == fileName
    {
      this.fileName := fileName;
    }

    method SetPlotType(plotType: int)
      modifies this`plotType
      ensures this.plotType == plotType
    {
      this.plotType := plotType;
    }

    method SetHDFFile(hdf: string)
      modifies this`hdf
      ensures this.hdf == hdf
    {
      this.hdf := hdf;
    }

    method GetJsonFile() returns (r: string)
      ensures r == fileName
    {
      r := fileName;
    }

    method GetPlotType() returns (r: int)
      ensures r == plotType
    {
      r := plotType;
    }

    method GetHDFFile() returns (r: string)
      ensures r == hdf
    {
      r := hdf;
    }

    /** The polygons as they stand now, including every `add` so far. */
    method GetDictionary() returns (r: Items)
      ensures r == dict
    {
      r := dict;
    }

    /**
      Writes the whole dict to the file named `fileName`, overwriting it:
      Store of the current dict. The writer itself does not change.
     */
    method Encode(fs: FileSystem) returns (r: Result<(), FileError>)
      requires Valid() && fs.Valid()
      modifies fs`files
      ensures fs.Valid()
      ensures r.Success? <==> Store(old(fs.files), fs.readOnly, fileName, dict).Success?
      ensures r.Success? ==> fs.files == Store(old(fs.files), fs.readOnly, fileName, dict).value
      ensures r.Failure? ==> fs.files == old(fs.files) && r.error == CannotWrite(fileName)
    {
      if fileName in fs.readOnly {
        return Failure(CannotWrite(fileName));
      }
      fs.files := fs.files[fileName := dict];
      r := Success(());
    }

    /**
      Replaces the dict wholesale with the document in the file named
      `fileName`: Load of that name. File name, plot type and HDF file stay.
     */
    method Decode(fs: FileSystem) returns (r: Result<(), FileError>)
      requires Valid() && fs.Valid()
      modifies this`dict
      ensures Valid()
      ensures r.Success? <==> Load(fs.files, fileName).Success?
      ensures r.Success? ==> dict == Load(fs.files, fileName).value
      ensures r.Failure? ==> dict == old(dict) && r.error == NoSuchFile(fileName)
    {
      if fileName !in fs.files {
        return Failure(NoSuchFile(fileName));
      }
      dict := fs.files[fileName];
      r := Success(());
    }
  }
}
