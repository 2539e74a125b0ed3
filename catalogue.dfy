/** The searches and the comprehension behind the catalogue mutations. */
module Catalogue {
  import opened Records
  import Seqs

  /** Index of the first movie with this id, or `|movies|` when there is none. */
  function MovieIndex(movies: seq<Movie>, movieId: int): (k: nat)
    ensures k <= |movies|
    ensures forall j :: 0 <= j < k ==> movies[j].movieId != movieId
    ensures k < |movies| ==> movies[k].movieId == movieId
  {
    Seqs.FirstIndex(movies, (m: Movie) => m.movieId == movieId)
  }

  /** The showings that survive deleting a movie: those of every other movie, in order. */
  function ShowingsOfOtherMovies(showings: seq<Showing>, movieId: int): (r: seq<Showing>)
    ensures forall i :: 0 <= i < |r| ==> r[i].movieId != movieId
    ensures forall s: Showing :: s.movieId != movieId ==> multiset(r)[s] == multiset(showings)[s]
    ensures Seqs.IsSubsequence(r, showings)
  {
    Seqs.Filter(showings, (s: Showing) => s.movieId != movieId)
  }
}
