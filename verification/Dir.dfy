/** Directories (fs.c): the search for a name among the entries of a directory file. */
module Dir {
  import opened Words
  import opened FsLayout
  import opened FsSpec
  import opened FileSpec
  import opened FsSteps
  import F = Fs

  const DIRSIZ := 14
  const T_DIR := 1

  // ---------- entries as bytes ----------

  /** The string that starts at the beginning of `s`: it ends at a zero, at the end or after fourteen bytes. */
  function NameOf(s: seq<Byte>): (r: seq<Byte>)
    ensures r <= s && |r| <= DIRSIZ && 0 !in r
    ensures |r| == |s| || |r| == DIRSIZ || s[|r|] == 0
  {
    NameUpTo(s, DIRSIZ)
  }

  function NameUpTo(s: seq<Byte>, n: nat): (r: seq<Byte>)
    ensures r <= s && |r| <= n && 0 !in r
    ensures |r| == |s| || |r| == n || s[|r|] == 0
  {
    if n == 0 || s == [] || s[0] == 0 then [] else [s[0]] + NameUpTo(s[1..], n - 1)
  }

  lemma {:induction false} NameUpToIs(s: seq<Byte>, n: nat, r: seq<Byte>)
    requires r <= s && |r| <= n && 0 !in r && (|r| == |s| || |r| == n || s[|r|] == 0)
    ensures NameUpTo(s, n) == r
    decreases n
  {
    if r != [] {
      assert s[0] == r[0] && s[1..][..|r| - 1] == r[1..];
      NameUpToIs(s[1..], n - 1, r[1..]);
    }
  }

  /** A beginning of `s` without a zero that stops where a name stops is the name. */
  lemma NameIs(s: seq<Byte>, r: seq<Byte>)
    requires r <= s && |r| <= DIRSIZ && 0 !in r && (|r| == |s| || |r| == DIRSIZ || s[|r|] == 0)
    ensures NameOf(s) == r
  {
    NameUpToIs(s, DIRSIZ, r);
  }

  /** Entry `k` of a directory lies wholly in its bytes. */
  predicate Whole(dir: seq<Byte>, k: int) { 0 <= k && 16 * k + 16 <= |dir| }

  function EntryInum(dir: seq<Byte>, k: int): nat
    requires Whole(dir, k)
  {
    dir[16 * k] as int + 0x100 * (dir[16 * k + 1] as int)
  }

  function EntryName(dir: seq<Byte>, k: int): seq<Byte>
    requires Whole(dir, k)
  {
    NameOf(dir[16 * k + 2..16 * k + 16])
  }

  /** Entry `k` is in use and has the name. */
  predicate Matching(dir: seq<Byte>, k: int, name: seq<Byte>)
    requires Whole(dir, k)
  {
    EntryInum(dir, k) != 0 && EntryName(dir, k) == NameOf(name)
  }

  /** None of the first `k` entries matches. */
  predicate NoMatch(dir: seq<Byte>, k: int, name: seq<Byte>) {
    forall j :: 0 <= j < k && Whole(dir, j) ==> !Matching(dir, j, name)
  }

  // ---------- the code ----------

  /** namecmp of a string and the name field of an entry: strncmp over fourteen characters. */
  method SameName(name: seq<Byte>, field: seq<Byte>) returns (same: bool)
    requires |field| == DIRSIZ
    ensures same <==> NameOf(name) == NameOf(field)
  {
    var p := 0;
    while p < DIRSIZ && p < |name| && name[p] != 0 && name[p] == field[p]
      invariant 0 <= p <= DIRSIZ && p <= |name| && name[..p] == field[..p] && 0 !in name[..p]
    {
      assert name[..p + 1] == name[..p] + [name[p]] && field[..p + 1] == field[..p] + [field[p]];
      p := p + 1;
    }
    if p == DIRSIZ {
      NameIs(name, name[..p]);
      NameIs(field, field[..p]);
      return true;
    }
    var c := if p < |name| then name[p] else 0;
    same := c == field[p];
    if c == 0 {
      NameIs(name, name[..p]);
      if same { NameIs(field, field[..p]); } else { LongerName(field, DIRSIZ, p); }
    } else {
      LongerName(name, DIRSIZ, p);
      if field[p] == 0 { NameIs(field, field[..p]); } else { LongerName(field, DIRSIZ, p); }
    }
  }

  /** A name that has not ended at `p` goes on with the byte there. */
  lemma {:induction false} LongerName(s: seq<Byte>, n: nat, p: nat)
    requires p < |s| && p < n && 0 !in s[..p + 1]
    ensures |NameUpTo(s, n)| > p && NameUpTo(s, n)[p] == s[p]
    decreases n
  {
    assert s[0] == s[..p + 1][0];
    if p > 0 {
      assert s[1..][..p] == s[..p + 1][1..];
      LongerName(s[1..], n - 1, p - 1);
    }
  }

  /** `NotDir` and `Short` are panics; `Halted` stands for a readi that did not return. */
  datatype Found = At(inum: nat, off: nat) | NoEntry | NotDir | Short | Halted

  /** The answer is right for a directory with the given bytes. */
  predicate Answers(dir: seq<Byte>, name: seq<Byte>, r: Found) {
    match r
    case At(inum, off) =>
      && off % 16 == 0 && Whole(dir, off / 16) && Matching(dir, off / 16, name) && NoMatch(dir, off / 16, name)
      && inum == EntryInum(dir, off / 16)
    case NoEntry => |dir| % 16 == 0 && NoMatch(dir, |dir| / 16, name)
    case Short => |dir| % 16 != 0 && NoMatch(dir, |dir| / 16, name)
    case NotDir => true
    case Halted => true
  }

  lemma NoneYet(dir: seq<Byte>, name: seq<Byte>)
    ensures NoMatch(dir, 0, name)
  {
  }

  /** An entry read from the file, and what the comparison says about it. */
  lemma EntryRead(dir: seq<Byte>, off: nat, name: seq<Byte>, de: seq<Byte>, same: bool)
    requires off % 16 == 0 && off + 16 <= |dir| && de == dir[off..off + 16] && NoMatch(dir, off / 16, name)
    requires same <==> NameOf(name) == NameOf(de[2..])
    ensures var k := off / 16;
            && Whole(dir, k) && EntryInum(dir, k) == de[0] as int + 0x100 * (de[1] as int)
            && (Matching(dir, k, name) <==> EntryInum(dir, k) != 0 && same)
            && (!Matching(dir, k, name) ==> NoMatch(dir, k + 1, name))
  {
    hide NameOf;
    var k := off / 16;
    assert 16 * k == off;
    assert de[2..] == dir[16 * k + 2..16 * k + 16];
  }

  lemma SameContent(st: State, after: State, i: nat, size: nat)
    requires st.Shape() && after.Shape() && after.sb == st.sb && i < st.sb.ninodes && size <= MAXSIZE && SameBytes(st, after)
    ensures Content(after, i, size) == Content(st, i, size)
  {
  }

  lemma MappedMore(st: State, lo: nat, hi: nat)
    requires st.Shape() && lo <= hi
    ensures AllMapped(st, 0, hi) ==> AllMapped(st, lo, hi) && AllMapped(st, 0, lo)
  {
    hide State.At;
  }

  lemma Shaped(st: State)
    requires st.Ok()
    ensures st.Shape()
  {
  }

  /** dirlookup: the first entry in use that has the name. If all that is read on the way is mapped, the search returns and
      leaves the disk alone. */
  method Lookup(fs: F.Fs, ip: F.Inode, name: seq<Byte>) returns (r: Found)
    requires fs.Logging() && fs.held == {} && fs.verdict.Fine? && fs.St(ip).Ok() && ip.size <= MAXSIZE
    modifies fs, ip`addrs
    ensures r.NotDir? <==> ip.typ != T_DIR
    ensures Answers(Content(old(fs.St(ip)), ip.inum, ip.size), name, r)
    ensures r.Halted? ==> exists k ::
      && 0 <= 16 * k < ip.size && NoMatch(Content(old(fs.St(ip)), ip.inum, ip.size), k, name)
      && !AllMapped(old(fs.St(ip)), 0, Clip(ip.size, 16 * k, 16))
    ensures r.NotDir? || AllMapped(old(fs.St(ip)), 0, if r.At? then r.off + 16 else ip.size) ==>
      && !r.Halted? && fs.Logging() && fs.held == {} && fs.verdict.Fine? && fs.busy == old(fs.busy)
      && fs.disk == old(fs.disk) && ip.addrs == old(ip.addrs)
  {
    hide F.Fs.Journal, State.Ok, State.Marked, State.Apart, State.MetaMarked, AllMapped, Content, SameBytes, Accounted;
    hide NameOf, Matching, EntryInum, EntryName, NoMatch;
    if ip.typ != T_DIR {
      return NotDir;
    }
    ghost var st := fs.St(ip);
    Shaped(st);
    ghost var dir := Content(st, ip.inum, ip.size);
    NoneMapped(st, 0);
    NoneYet(dir, name);
    var off := 0;
    while off < ip.size
      invariant 0 <= off <= ip.size && off % 16 == 0
      invariant fs.Logging() && fs.held == {} && fs.verdict.Fine? && fs.busy == old(fs.busy)
      invariant fs.St(ip).Ok() && fs.St(ip).Shape() && Content(fs.St(ip), ip.inum, ip.size) == dir
      invariant NoMatch(dir, off / 16, name)
      invariant AllMapped(st, 0, off) ==> fs.disk == old(fs.disk) && ip.addrs == old(ip.addrs)
    {
      var next := Clip(ip.size, off, 16);
      MappedMore(st, off, next);
      MappedMore(st, next, ip.size);
      ghost var now := fs.St(ip);
      var de := fs.Readi(ip, off, 16);
      if !de.Got? {
        return Halted;
      }
      Shaped(fs.St(ip));
      SameContent(now, fs.St(ip), ip.inum, ip.size);
      if |de.data| != 16 {
        return Short;
      }
      var inum := de.data[0] as int + 0x100 * (de.data[1] as int);
      var same := SameName(name, de.data[2..]);
      EntryRead(dir, off, name, de.data, same);
      if inum != 0 && same {
        return At(inum, off);
      }
      off := off + 16;
    }
    r := NoEntry;
  }
}
