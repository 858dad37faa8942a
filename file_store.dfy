/** FileStore: the folders and files the normaliser reads and writes, as an
    object whose state the operations update. Only what the modelled code
    asks of the file system is here: existence, creating a folder
    (PathCreator.create_path), saving an image, reading it back and
    unlinking it. */
module FileStore {
  import opened Wrappers
  import opened Errors
  import opened PathLib
  import opened Normalisation

  /** What a file holds: a raster image (a jpeg, or a source slide), or the
      tiled TIFF `pyvips.Image.arrayjoin` writes from tiles laid out
      `across` tiles wide. */
  datatype Content = Raster(image: Image) | TiledTiff(tiles: seq<Pixels>, across: int)

  /** `path.exists()` over the given folders and files. */
  predicate Present(dirs: set<Path>, files: map<Path, Content>, path: Path) {
    path in dirs || path in files
  }

  /** The files after a run of operations, and the error that stopped the
      run, if one did (the operations before it keep their effect). */
  datatype Effect = Effect(files: map<Path, Content>, error: Option<Error>)

  /** Why `mkdir(parents=False, exist_ok=rewrite)` fails, if it does:
      something already at the path (a file always, a folder unless
      rewrite), or no parent folder. */
  function CreatePathError(dirs: set<Path>, files: map<Path, Content>, path: Path, rewrite: bool): Option<Error> {
    if path in files || (path in dirs && !rewrite) then Some(UserInputError(PathAlreadyExists(path)))
    else if path !in dirs && path.Parent() !in dirs then Some(NoSuchDirectory(path.Parent()))
    else None
  }

  class FileSystem {
    var dirs: set<Path>
    var files: map<Path, Content>

    constructor (dirs0: set<Path>, files0: map<Path, Content>)
      ensures dirs == dirs0 && files == files0
    {
      dirs := dirs0;
      files := files0;
    }

    /** `path.exists()`. */
    predicate Exists(path: Path)
      reads this
    {
      Present(dirs, files, path)
    }

    /** PathCreator.create_path: make the folder; an existing folder is
        accepted only with rewrite. */
    method CreatePath(path: Path, rewrite: bool) returns (r: Result<(), Error>)
      modifies this
      ensures files == old(files)
      ensures var e := CreatePathError(old(dirs), old(files), path, rewrite);
        (r.Err? <==> e.Some?) && (r.Err? ==> r.error == e.value)
      ensures r.Ok? ==> dirs == old(dirs) + {path} && path in dirs
      ensures r.Err? ==> dirs == old(dirs)
    {
      var e := CreatePathError(dirs, files, path, rewrite);
      if e.Some? {
        return Err(e.value);
      }
      dirs := dirs + {path};
      return Ok(());
    }

    /** Write a file into an existing folder, replacing what was there. */
    method Save(path: Path, content: Content) returns (r: Result<(), Error>)
      modifies this
      ensures dirs == old(dirs)
      ensures r.Err? <==> path.Parent() !in dirs
      ensures r.Err? ==> r.error == NoSuchDirectory(path.Parent()) && files == old(files)
      ensures r.Ok? ==> files == old(files)[path := content]
    {
      if path.Parent() !in dirs {
        return Err(NoSuchDirectory(path.Parent()));
      }
      files := files[path := content];
      return Ok(());
    }

    /** Normalisation.save_jpeg: save under the path with its suffix
        replaced by `.jpeg`. */
    method SaveJpeg(path: Path, img: Image) returns (r: Result<(), Error>)
      requires path.parts != []
      modifies this
      ensures dirs == old(dirs)
      ensures var target := path.WithSuffix(".jpeg");
        (r.Err? <==> target.Parent() !in dirs) &&
        (r.Ok? ==> files == old(files)[target := Raster(img)]) &&
        (r.Err? ==> r.error == NoSuchDirectory(target.Parent()) && files == old(files))
    {
      r := Save(path.WithSuffix(".jpeg"), Raster(img));
    }

    /** `Path.unlink()`. */
    method Unlink(path: Path) returns (r: Result<(), Error>)
      modifies this
      ensures dirs == old(dirs)
      ensures r.Err? <==> path !in old(files)
      ensures r.Err? ==> r.error == MissingFile(path) && files == old(files)
      ensures r.Ok? ==> files == old(files) - {path}
    {
      if path !in files {
        return Err(MissingFile(path));
      }
      files := files - {path};
      return Ok(());
    }
  }

  /** Read a raster image (`vips_imread`, `pyvips.Image.new_from_file`):
      a path that holds no image raises. */
  function ReadImage(files: map<Path, Content>, path: Path): (r: Result<Image, Error>)
    ensures r.Ok? <==> path in files && files[path].Raster?
    ensures r.Ok? ==> r.value == files[path].image
    ensures r.Err? ==> r.error == MissingFile(path)
  {
    if path in files && files[path].Raster? then Ok(files[path].image) else Err(MissingFile(path))
  }

  /** Creating a folder that exists, with rewrite, changes nothing; creating
      it again without rewrite fails. */
  lemma CreatePathTwice(dirs: set<Path>, files: map<Path, Content>, path: Path)
    requires CreatePathError(dirs, files, path, false).None?
    ensures CreatePathError(dirs + {path}, files, path, true).None?
    ensures CreatePathError(dirs + {path}, files, path, false) == Some(UserInputError(PathAlreadyExists(path)))
  {
  }
}
