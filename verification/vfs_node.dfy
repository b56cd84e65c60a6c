/** The open file or directory that the filesystem hands to its callers. */
module VfsNode {
  import opened Bytes

  const VFS_FILE := 1
  const VFS_DIR := 2

  class Node {
    var name: seq<Byte>
    var flags: int
    var size: int
    var inode: int
    var dirLba: int
    var dirIndex: int

    constructor (name: seq<Byte>, flags: int, size: int, inode: int, dirLba: int, dirIndex: int)
      ensures this.name == name && this.flags == flags && this.size == size
      ensures this.inode == inode && this.dirLba == dirLba && this.dirIndex == dirIndex
    {
      this.name := name;
      this.flags := flags;
      this.size := size;
      this.inode := inode;
      this.dirLba := dirLba;
      this.dirIndex := dirIndex;
    }
  }
}
