/**
 * The command line: `--load` reads an existing folder, otherwise `t` and `n` are required and a
 * fresh folder is written. On success the wallet's keys are reported as three lines of text.
 */
module Cli {
  import opened Wrappers
  import opened BoundedInts
  import opened Hex
  import opened Frost
  import opened Monero
  import opened Dkg
  import opened Persistence

  /** The parsed arguments: optional threshold and count, the folder and the load switch. */
  datatype Options = Options(t: Option<uint16>, n: Option<uint16>, path: string, load: bool)

  /** The reminder printed after a folder has been written. */
  const Warnings: seq<string> := [
    "The key shares have been written to the specified folder. Test them before funding them.",
    "This means loading the private keys, entering them into monero-wallet-cli, and verifying the address.",
    "Failure to do so may result in a permanent loss of funds."
  ]

  const SpendLabel := "Private spend key: "
  const ViewLabel := "Private view key: "
  const AddressLabel := "Address: "

  /** The three lines that report a wallet. */
  function Report(curve: Curve, id: Identity): seq<string> {
    [ SpendLabel + HexEncode(curve.scalarBytes(id.spend)),
      ViewLabel + HexEncode(curve.scalarBytes(id.view)),
      AddressLabel + id.address ]
  }

  /**
   * The program: on success r holds the wallet and out the lines printed; on an error nothing
   * is printed (the program aborts) and, where the error precedes writing, the files are untouched.
   */
  method Run(lib: Library, curve: Curve, opts: Options, fs: FileSystem)
    returns (r: Result<Identity>, fs': FileSystem, out: seq<string>)
    ensures opts.load ==> fs' == fs && (r == Err(PathMissing) <==> opts.path !in fs)
    ensures !opts.load && (opts.t.None? || opts.n.None?) ==> r == Err(MissingThreshold) && fs' == fs
    ensures !opts.load && opts.t.Some? && opts.n.Some? ==> (r == Err(PathExists) <==> opts.path in fs)
    ensures !opts.load && r == Err(PathExists) ==> fs' == fs
    ensures !opts.load && opts.t.Some? && opts.n.Some? && opts.path !in fs ==>
              (r == Err(InvalidParams) <==> opts.n.value >= 1 && !(1 <= opts.t.value <= opts.n.value))
    ensures fs' == fs || (opts.path !in fs && opts.path in fs' && fs' == fs[opts.path := fs'[opts.path]])
    ensures r.Ok? ==> Loads(lib, curve, fs', opts.path, r.value)
    ensures r.Ok? ==> out == (if opts.load then [] else Warnings) + Report(curve, r.value)
    ensures r.Err? ==> out == []
    ensures !opts.load && r.Ok? ==>
              && opts.n.Some? && |fs'[opts.path]| == opts.n.value as int
              && forall f :: f in fs'[opts.path] ==>
                   && fs'[opts.path][f].address == Some(r.value.address)
                   && fs'[opts.path][f].view == Some(HexEncode(curve.scalarBytes(r.value.view)))
    ensures && Laws(lib) && !opts.load && opts.t.Some? && opts.n.Some? && opts.path !in fs
            && KeyGenSpec(lib, opts.t.value, opts.n.value).Some?
            && lib.recover(KeyGenSpec(lib, opts.t.value, opts.n.value).value).Some?
            ==> r.Ok?
  {
    fs' := fs;
    if !opts.load {
      if opts.t.None? || opts.n.None? {
        return Err(MissingThreshold), fs, [];
      }
      r, fs' := New(lib, curve, fs, opts.path, opts.t.value, opts.n.value);
    } else {
      r := Load(lib, curve, fs, opts.path);
    }
    if r.Err? {
      return r, fs', [];
    }
    out := (if opts.load then [] else Warnings) + Report(curve, r.value);
  }
}
