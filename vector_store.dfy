/**
 * The identity registry: a persisted list of embeddings and a directory of
 * stored images. The filesystem is abstract: the embeddings file is missing,
 * unreadable, or holds a list; the image directory is missing or maps file
 * names to their contents.
 */
module VectorStore {
  import opened Types

  /** The embeddings file `stored_embeddings.npy`. */
  datatype DbFile = Missing | Corrupt | Saved(entries: seq<Embedding>)

  /** The image directory `stored_images`. */
  datatype ImageDir = NoDir | Dir(files: map<string, Frame>)

  /** `load_db()`: a missing or unreadable file recovers to the empty registry. */
  function LoadDb(f: DbFile): (db: seq<Embedding>)
    ensures !f.Saved? ==> db == []
    ensures f.Saved? ==> db == f.entries
  {
    match f
    case Missing => []
    case Corrupt => []
    case Saved(entries) => entries
  }

  /** `save_db(db)`: what it writes loads back as `db`. */
  function SaveDb(db: seq<Embedding>): (f: DbFile)
    ensures LoadDb(f) == db
  {
    Saved(db)
  }

  predicate IsHexDigit(c: char)
  {
    '0' <= c <= '9' || 'a' <= c <= 'f'
  }

  /** The shape of `uuid.uuid4().hex`: 32 lower-case hexadecimal digits. */
  predicate IsUuidHex(hex: string)
  {
    |hex| == 32 && forall i :: 0 <= i < |hex| ==> IsHexDigit(hex[i])
  }

  /** A name the pattern `*.jpg` matches: it ends in ".jpg" and, as a shell glob, does not start with '.'. */
  predicate IsJpgName(name: string)
  {
    |name| >= 4 && name[|name| - 4 ..] == ".jpg" && name[0] != '.'
  }

  /** The names the `*.jpg` glob over the image directory lists. */
  function JpgNames(dir: ImageDir): (names: set<string>)
    ensures dir.NoDir? ==> names == {}
    ensures dir.Dir? ==> forall n :: n in names <==> n in dir.files && IsJpgName(n)
  {
    if dir.NoDir? then {} else set n | n in dir.files && IsJpgName(n)
  }

  class Store {
    var dbFile: DbFile
    var imageDir: ImageDir

    constructor (dbFile: DbFile, imageDir: ImageDir)
      ensures this.dbFile == dbFile && this.imageDir == imageDir
    {
      this.dbFile := dbFile;
      this.imageDir := imageDir;
    }

    /** The image directory's files, an absent directory having none. */
    function Files(): map<string, Frame>
      reads this
    {
      if imageDir.Dir? then imageDir.files else map[]
    }

    /** `get_identity_count()`: the number of `.jpg` files, 0 when the directory is missing. */
    function IdentityCount(): (n: nat)
      reads this
      ensures imageDir.NoDir? ==> n == 0
    {
      |JpgNames(imageDir)|
    }

    /**
     * `store_face(frame, embedding)`. `hex` is the fresh uuid4 hex string;
     * the image is written under `<hex>.jpg`, then the embedding is appended
     * to the loaded registry and the whole list is written back.
     */
    method StoreFace(frame: Frame, embedding: Embedding, hex: string) returns (filename: string)
      requires IsUuidHex(hex)
      requires hex + ".jpg" !in Files()
      modifies this
      ensures filename == hex + ".jpg" && IsJpgName(filename)
      ensures imageDir == Dir(old(Files())[filename := frame])
      ensures dbFile == Saved(LoadDb(old(dbFile)) + [embedding])
      ensures LoadDb(dbFile) == LoadDb(old(dbFile)) + [embedding]
      ensures !old(dbFile).Saved? ==> LoadDb(dbFile) == [embedding]
      ensures JpgNames(imageDir) == JpgNames(old(imageDir)) + {filename}
      ensures IdentityCount() == old(IdentityCount()) + 1
    {
      filename := hex + ".jpg";
      assert filename[|filename| - 4 ..] == ".jpg";
      assert filename[0] == hex[0];
      ghost var before := JpgNames(imageDir);
      imageDir := Dir(Files()[filename := frame]);
      assert JpgNames(imageDir) == before + {filename};
      var db := LoadDb(dbFile);
      db := db + [embedding];
      dbFile := SaveDb(db);
    }

    /** `list_identities()`: the `.jpg` names, each once, in the directory's listing order. */
    method ListIdentities() returns (names: seq<string>)
      ensures forall n :: n in names <==> n in JpgNames(imageDir)
      ensures forall i, j :: 0 <= i < j < |names| ==> names[i] != names[j]
      ensures |names| == IdentityCount()
    {
      var rest := JpgNames(imageDir);
      names := [];
      while rest != {}
        invariant rest <= JpgNames(imageDir)
        invariant forall n :: n in names <==> n in JpgNames(imageDir) && n !in rest
        invariant forall i, j :: 0 <= i < j < |names| ==> names[i] != names[j]
        invariant |names| + |rest| == |JpgNames(imageDir)|
        decreases rest
      {
        var n :| n in rest;
        names := names + [n];
        rest := rest - {n};
      }
    }

    /** `reset_registry()`: removes the embeddings file and then every file of the image directory. */
    method ResetRegistry()
      modifies this
      ensures dbFile == Missing
      ensures old(imageDir).NoDir? ==> imageDir == NoDir
      ensures old(imageDir).Dir? ==> imageDir == Dir(map[])
      ensures LoadDb(dbFile) == [] && IdentityCount() == 0
    {
      if !dbFile.Missing? {
        dbFile := Missing;
      }
      if imageDir.Dir? {
        var listing := imageDir.files.Keys;
        while listing != {}
          invariant dbFile == Missing && imageDir.Dir?
          invariant imageDir.files.Keys == listing
          decreases listing
        {
          var f :| f in listing;
          imageDir := Dir(map n | n in imageDir.files && n != f :: imageDir.files[n]);
          listing := listing - {f};
        }
        assert imageDir.files == map[];
      }
    }
  }
}
