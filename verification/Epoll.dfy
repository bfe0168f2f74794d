module Epoll {
  /** What epoll_wait reports about a socket; `other` stands for any other event bit. */
  datatype Events = Events(readable: bool, writable: bool, other: bool)
}
