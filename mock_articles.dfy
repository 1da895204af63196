/**
  The fallback dataset, `lib/mocks/articles.ts`: a fixed table of five articles and the
  lookup by id over it.
 */
module MockArticles {
  import opened Wrappers
  import opened JsText
  import opened ArticleTypes

  // Each markdown body is its heading line followed by the rest of the text, exactly as
  // the table spells it (template-literal escapes resolved).

  const AstroHeading: String := "# Introduction to Astro Framework \U{1F680}\n"

  const AstroContent: String := AstroHeading + AstroRest

  const AstroRest: String :=
      "\n"
      + "Astro is a modern static site generator designed to create fast and optimized web applications. It enables developers to build websites that are not only lightning-fast but also efficient in terms of performance and user experience. With its innovative approach to rendering, Astro allows developers to use their favorite JavaScript frameworks while delivering minimal JavaScript to the client.\n"
      + "\n"
      + "## Key Features \U{1F31F}\n"
      + "\n"
      + "1. **Partial Hydration**:\n"
      + "   Astro's unique partial hydration feature enables developers to send static HTML to the browser and only load the necessary JavaScript when interactivity is required. This results in faster load times and a smoother user experience.\n"
      + "\n"
      + "2. **Framework Agnostic**:\n"
      + "   One of Astro's standout features is its flexibility regarding frameworks. You can integrate React, Vue, Svelte, or any other popular framework seamlessly. This allows developers to use the best tools for their projects without being locked into a single ecosystem.\n"
      + "\n"
      + "3. **Static Site Generation (SSG)**:\n"
      + "   Astro is optimized for static site generation, allowing developers to pre-render pages at build time. This makes it ideal for blogs, documentation sites, and any content-focused websites.\n"
      + "\n"
      + "4. **Markdown Support**:\n"
      + "   With Astro, it's easy to include content written in Markdown. This is particularly beneficial for content creators who prefer a simpler writing format. Astro can transform Markdown files into static HTML effortlessly.\n"
      + "\n"
      + "5. **SEO-Friendly**:\n"
      + "   Since Astro generates static HTML, it's inherently SEO-friendly. Search engines can crawl and index the content easily, improving website visibility."

  const ReactHeading: String := "# Getting Started with React \U{269B}\U{FE0F}\n"

  const ReactContent: String := ReactHeading + ReactRest

  const ReactRest: String :=
      "\n"
      + "React is a JavaScript library for building user interfaces with a focus on component-based architecture. It allows developers to create reusable UI components that efficiently manage state and render updates.\n"
      + "\n"
      + "## Core Concepts\n"
      + "\n"
      + "1. **Components**: Reusable pieces of UI that encapsulate structure and behavior.\n"
      + "2. **JSX**: A syntax extension that allows you to write HTML-like code in JavaScript.\n"
      + "3. **State**: Data that changes over time and triggers re-renders.\n"
      + "4. **Props**: Read-only attributes passed from parent to child components.\n"
      + "5. **Hooks**: Functions that let you use state and other React features.\n"
      + "\n"
      + "## Benefits\n"
      + "\n"
      + "- **Efficient Rendering**: React uses a virtual DOM to optimize updates\n"
      + "- **Large Ecosystem**: Extensive library support for routing, state management, and more\n"
      + "- **Strong Community**: Widely adopted with abundant learning resources"

  const DockerHeading: String := "# Docker Containerization Basics \U{1F433}\n"

  const DockerContent: String := DockerHeading + DockerRest

  const DockerRest: String :=
      "\n"
      + "Docker is a containerization platform that packages applications and their dependencies into isolated containers. This ensures consistent behavior across different environments.\n"
      + "\n"
      + "## What are Containers?\n"
      + "\n"
      + "Containers are lightweight, standalone packages that contain everything needed to run an application:\n"
      + "- Code\n"
      + "- Runtime\n"
      + "- System tools\n"
      + "- Libraries\n"
      + "- Settings\n"
      + "\n"
      + "## Key Advantages\n"
      + "\n"
      + "1. **Consistency**: Same behavior in development, testing, and production\n"
      + "2. **Isolation**: Applications don't interfere with each other\n"
      + "3. **Portability**: Run anywhere Docker is installed\n"
      + "4. **Efficiency**: Lightweight compared to virtual machines\n"
      + "5. **Scalability**: Easy to scale applications horizontally\n"
      + "\n"
      + "## Docker Components\n"
      + "\n"
      + "- **Images**: Blueprint for creating containers\n"
      + "- **Containers**: Running instances of images\n"
      + "- **Registry**: Repository for storing and sharing images\n"
      + "- **Dockerfile**: Configuration file for building images"

  const ExpressHeading: String := "# Building APIs with Express.js \U{1F680}\n"

  const ExpressContent: String := ExpressHeading + ExpressRest

  const ExpressRest: String :=
      "\n"
      + "Express.js is a minimal and flexible Node.js web application framework that provides a robust set of features for web and mobile applications. It's perfect for building REST APIs.\n"
      + "\n"
      + "## Express Basics\n"
      + "\n"
      + "Express provides:\n"
      + "- Routing: Define endpoints for different HTTP methods\n"
      + "- Middleware: Process requests before they reach route handlers\n"
      + "- Request/Response handling: Easy access to request data and response methods\n"
      + "- Error handling: Comprehensive error management\n"
      + "\n"
      + "## Building REST APIs\n"
      + "\n"
      + "A typical REST API with Express includes:\n"
      + "1. Route definitions for CRUD operations\n"
      + "2. Middleware for authentication and validation\n"
      + "3. Database integration for data persistence\n"
      + "4. Error handling and logging\n"
      + "\n"
      + "## Best Practices\n"
      + "\n"
      + "- Use proper HTTP methods (GET, POST, PUT, DELETE)\n"
      + "- Implement consistent error responses\n"
      + "- Use middleware for cross-cutting concerns\n"
      + "- Validate input data\n"
      + "- Document your API endpoints"

  const MongoHeading: String := "# MongoDB: NoSQL Database Guide \U{1F4CA}\n"

  const MongoContent: String := MongoHeading + MongoRest

  const MongoRest: String :=
      "\n"
      + "MongoDB is a NoSQL, document-oriented database that stores data in flexible JSON-like documents. It's designed for scalability and flexibility.\n"
      + "\n"
      + "## Document Model\n"
      + "\n"
      + "MongoDB stores data in BSON (Binary JSON) format:\n"
      + "- Documents are similar to JSON objects\n"
      + "- Collections are groups of documents\n"
      + "- No predefined schema is required\n"
      + "\n"
      + "## Key Features\n"
      + "\n"
      + "1. **Flexibility**: Schema-less design allows easy modifications\n"
      + "2. **Scalability**: Horizontal scaling through sharding\n"
      + "3. **Indexing**: Supports various indexing strategies for performance\n"
      + "4. **Aggregation**: Powerful pipeline for data transformation\n"
      + "5. **Replication**: Automatic data replication for high availability\n"
      + "\n"
      + "## Data Structure Example\n"
      + "\n"
      + "```json\n"
      + "{\n"
      + "  \"_id\": ObjectId(\"507f1f77bcf86cd799439011\"),\n"
      + "  \"name\": \"John Doe\",\n"
      + "  \"email\": \"john@example.com\",\n"
      + "  \"age\": 30,\n"
      + "  \"tags\": [\"developer\", \"mongodb\"]\n"
      + "}\n"
      + "```\n"
      + "\n"
      + "## Use Cases\n"
      + "\n"
      + "- Content Management Systems\n"
      + "- Real-time analytics\n"
      + "- IoT applications\n"
      + "- Mobile app backends"

  // The excerpts of the five entries.
  const AstroExcerpt: String :=
    "Build faster websites with Astro - a modern static site generator with partial hydration and framework agnostic approach."

  const ReactExcerpt: String :=
    "Learn the fundamentals of React, including components, JSX, state management, and hooks."

  const DockerExcerpt: String :=
    "Understand Docker containerization, its benefits, and how to package applications for deployment."

  const ExpressExcerpt: String :=
    "Master Express.js for building scalable REST APIs with robust routing and middleware support."

  const MongoExcerpt: String :=
    "Explore MongoDB as a flexible NoSQL database solution with powerful querying and aggregation capabilities."

  const AstroEntry: Article := Article(
    "astro", "Introduction to Astro Framework", "astro", AstroContent, AstroExcerpt,
    "2024-01-01T00:00:00Z", "2024-01-15T00:00:00Z")

  const ReactEntry: Article := Article(
    "react", "Getting Started with React", "react", ReactContent, ReactExcerpt,
    "2024-01-02T00:00:00Z", "2024-01-14T00:00:00Z")

  const DockerEntry: Article := Article(
    "docker", "Docker Containerization Basics", "docker", DockerContent, DockerExcerpt,
    "2024-01-03T00:00:00Z", "2024-01-13T00:00:00Z")

  const ExpressEntry: Article := Article(
    "express", "Building APIs with Express.js", "express", ExpressContent, ExpressExcerpt,
    "2024-01-04T00:00:00Z", "2024-01-12T00:00:00Z")

  const MongoEntry: Article := Article(
    "mongo", "MongoDB: NoSQL Database Guide", "mongo", MongoContent, MongoExcerpt,
    "2024-01-05T00:00:00Z", "2024-01-11T00:00:00Z")

  /** `MOCK_ARTICLES`. */
  const MockArticleTable: seq<Article> := [AstroEntry, ReactEntry, DockerEntry, ExpressEntry, MongoEntry]

  /** The ids of the table, in order. */
  const MockIds: seq<String> := ["astro", "react", "docker", "express", "mongo"]

  /** The ids of a list of articles, in order. */
  function Ids(articles: seq<Article>): (r: seq<String>)
    ensures |r| == |articles| && forall k :: 0 <= k < |r| ==> r[k] == articles[k].id
  {
    seq(|articles|, k requires 0 <= k < |articles| => articles[k].id)
  }

  /** Where `Array.find` stops when looking for `id`: the first entry with that id. */
  function FirstWithId(articles: seq<Article>, id: String): (r: Option<nat>)
    ensures r.Some? ==> r.value < |articles| && articles[r.value].id == id
    ensures r.Some? ==> forall j :: 0 <= j < r.value ==> articles[j].id != id
    ensures r.None? <==> id !in Ids(articles)
    decreases |articles|
  {
    if |articles| == 0 then None
    else if articles[0].id == id then Some(0)
    else
      match FirstWithId(articles[1..], id)
      case None =>
        assert Ids(articles) == [articles[0].id] + Ids(articles[1..]);
        None
      case Some(k) => Some(k + 1)
  }

  /** `articles.find((article) => article.id === id)`. */
  function FindById(articles: seq<Article>, id: String): (r: Option<Article>)
    ensures r.Some? ==> r.value.id == id && r.value in articles
    ensures r.None? <==> id !in Ids(articles)
  {
    match FirstWithId(articles, id)
    case None => None
    case Some(k) => Some(articles[k])
  }

  /** Ids are unique in a list of articles. */
  predicate UniqueIds(articles: seq<Article>) {
    forall i, j :: 0 <= i < j < |articles| ==> articles[i].id != articles[j].id
  }

  /** A list whose ids are the five table ids has unique ids. */
  lemma UniqueWithMockIds(articles: seq<Article>)
    requires Ids(articles) == MockIds
    ensures UniqueIds(articles)
  {
    forall i, j | 0 <= i < j < |articles|
      ensures articles[i].id != articles[j].id
    {
      assert articles[i].id == MockIds[i] && articles[j].id == MockIds[j];
    }
  }

  /** With unique ids, looking up the id of an entry finds that very entry. */
  lemma FindOwnId(articles: seq<Article>, k: nat)
    requires UniqueIds(articles) && k < |articles|
    ensures FindById(articles, articles[k].id) == Some(articles[k])
  {
    assert Ids(articles)[k] == articles[k].id;
    var r := FirstWithId(articles, articles[k].id);
    assert r.value == k;
  }

  /** `getMockArticles`: the five entries, in the order astro, react, docker, express, mongo. */
  function GetMockArticles(): (r: seq<Article>)
    ensures Ids(r) == MockIds
  {
    MockArticleTable
  }

  /** `getMockArticle(id)`: an entry with that id, absent exactly when `id` is none of the
      five ids. */
  function GetMockArticle(id: String): (r: Option<Article>)
    ensures r.Some? ==> r.value.id == id && r.value in GetMockArticles()
    ensures r.None? <==> id !in MockIds
  {
    FindById(GetMockArticles(), id)
  }

  /** The ids of the table are pairwise distinct. */
  lemma MockIdsUnique()
    ensures UniqueIds(GetMockArticles())
  {
    UniqueWithMockIds(GetMockArticles());
  }

  /** Each entry's slug is its id. */
  lemma MockSlugIsId()
    ensures forall k :: 0 <= k < |GetMockArticles()| ==> GetMockArticles()[k].slug == GetMockArticles()[k].id
  {
  }

  /** Every entry has a non-empty id, title, slug, excerpt and content. */
  lemma MockFieldsNonEmpty()
    ensures forall k :: 0 <= k < |GetMockArticles()| ==> FieldsNonEmpty(GetMockArticles()[k])
  {
  }

  /** id, title, slug, excerpt and content are all non-empty. */
  predicate FieldsNonEmpty(a: Article) {
    |a.id| > 0 && |a.title| > 0 && |a.slug| > 0 && |a.excerpt| > 0 && |a.content| > 0
  }

  /** Each entry of the table is what the lookup of its own id returns. */
  lemma MockLookupExact()
    ensures forall k :: 0 <= k < |GetMockArticles()| ==> GetMockArticle(GetMockArticles()[k].id) == Some(GetMockArticles()[k])
  {
    var t := GetMockArticles();
    UniqueWithMockIds(t);
    forall k | 0 <= k < |t|
      ensures GetMockArticle(t[k].id) == Some(t[k])
    {
      FindOwnId(t, k);
    }
  }

  /** The astro entry is found under `astro`, with its title. */
  lemma AstroTitle()
    ensures GetMockArticle("astro").Some?
    ensures GetMockArticle("astro").value.title == "Introduction to Astro Framework"
  {
  }
}
